/** The lexer: one statement text becomes a sequence of (kind, text) tokens.
    Eight fixed patterns are tried in a fixed priority order at each position;
    only the space character is skipped between tokens; when no pattern
    matches, scanning stops and the tokens found so far are the result. */
module Tokenizer {
  import opened Int32

  datatype Kind = LParen | RParen | Func | Cmd | Var | Number | Relop | Binop

  datatype Token = Token(kind: Kind, text: string)

  datatype Option<+T> = None | Some(value: T)

  /** The order in which the patterns are tried at every position */
  const Priority: seq<Kind> := [LParen, RParen, Func, Cmd, Var, Number, Relop, Binop]

  /** The character ε in the RELOP and BINOP patterns; the regular-expression
      engine reads it as an ordinary literal character, not as "empty" */
  const Epsilon: char := '\U{03B5}'

  predicate IsUpper(c: char) {
    'A' <= c <= 'Z'
  }

  predicate AllUpper(w: string) {
    forall i :: 0 <= i < |w| ==> IsUpper(w[i])
  }

  /** A run of n spaces */
  function Spaces(n: nat): (w: string)
    ensures |w| == n
  {
    if n == 0 then [] else [' '] + Spaces(n - 1)
  }

  /** The texts each pattern matches in full */
  predicate InLang(k: Kind, w: string) {
    match k
    case LParen => w == "("
    case RParen => w == ")"
    case Func => |w| >= 3 && w[|w| - 1] == '(' && AllUpper(w[..|w| - 1])
    case Cmd => |w| >= 2 && AllUpper(w)
    case Var => |w| == 1 && IsUpper(w[0])
    case Number => |w| >= 1 && AllDigits(w)
    case Relop => w in {"<>", "<=", ['<', Epsilon], ">=", ['>', Epsilon], "=", "<", ">"}
    case Binop => w in {"+", "-", "*", "/", [Epsilon]}
  }

  /** n is what an anchored match of pattern k on s consumes: the longest
      prefix of s that the pattern matches in full, or 0 when there is none */
  ghost predicate LongestMatch(k: Kind, s: string, n: nat) {
    && n <= |s|
    && (n > 0 ==> InLang(k, s[..n]))
    && forall j {:trigger InLang(k, s[..j])} :: n < j <= |s| ==> !InLang(k, s[..j])
  }

  /** The length of the maximal run of upper-case letters at the front of s */
  function UpperRun(s: string): (n: nat)
    ensures n <= |s|
  {
    if |s| > 0 && IsUpper(s[0]) then 1 + UpperRun(s[1..]) else 0
  }

  lemma {:induction false} UpperRunSpec(s: string)
    ensures AllUpper(s[..UpperRun(s)])
    ensures UpperRun(s) == |s| || !IsUpper(s[UpperRun(s)])
  {
    if |s| > 0 && IsUpper(s[0]) {
      var n := UpperRun(s);
      UpperRunSpec(s[1..]);
      assert s[..n] == [s[0]] + s[1..][..n - 1];
    }
  }

  /** The length of the maximal run of ASCII digits at the front of s */
  function DigitRun(s: string): (n: nat)
    ensures n <= |s|
  {
    if |s| > 0 && IsDigit(s[0]) then 1 + DigitRun(s[1..]) else 0
  }

  lemma {:induction false} DigitRunSpec(s: string)
    ensures AllDigits(s[..DigitRun(s)])
    ensures DigitRun(s) == |s| || !IsDigit(s[DigitRun(s)])
  {
    if |s| > 0 && IsDigit(s[0]) {
      var n := DigitRun(s);
      DigitRunSpec(s[1..]);
      assert s[..n] == [s[0]] + s[1..][..n - 1];
    }
  }

  /** The hand-written matcher of each pattern; MatchLenSpec states what it computes */
  function MatchLen(k: Kind, s: string): (n: nat)
    ensures n <= |s|
  {
    match k
    case LParen => if |s| > 0 && s[0] == '(' then 1 else 0
    case RParen => if |s| > 0 && s[0] == ')' then 1 else 0
    case Func =>
      var u := UpperRun(s);
      if u >= 2 && u < |s| && s[u] == '(' then u + 1 else 0
    case Cmd =>
      var u := UpperRun(s);
      if u >= 2 then u else 0
    case Var => if |s| > 0 && IsUpper(s[0]) then 1 else 0
    case Number =>
      var d := DigitRun(s);
      d
    case Relop =>
      if |s| == 0 then 0
      else if s[0] == '<' then (if |s| >= 2 && s[1] in {'>', '=', Epsilon} then 2 else 1)
      else if s[0] == '>' then (if |s| >= 2 && s[1] in {'=', Epsilon} then 2 else 1)
      else if s[0] == '=' then 1
      else 0
    case Binop =>
      if |s| > 0 && s[0] in {'+', '-', '*', '/', Epsilon} then 1 else 0
  }

  /** Each matcher consumes the longest prefix its pattern matches in full, or nothing */
  lemma MatchLenSpec(k: Kind, s: string)
    ensures LongestMatch(k, s, MatchLen(k, s))
  {
    match k
    case LParen =>
    case RParen =>
    case Func => UpperRunSpec(s); FuncLongest(s, UpperRun(s));
    case Cmd => UpperRunSpec(s); CmdLongest(s, UpperRun(s));
    case Var =>
    case Number => DigitRunSpec(s); NumberLongest(s, DigitRun(s));
    case Relop => RelopLongest(s);
    case Binop => BinopLongest(s);
  }

  lemma FuncLongest(s: string, u: nat)
    requires u <= |s| && AllUpper(s[..u]) && (u == |s| || !IsUpper(s[u]))
    ensures LongestMatch(Func, s, if u >= 2 && u < |s| && s[u] == '(' then u + 1 else 0)
  {
    if u >= 2 && u < |s| && s[u] == '(' {
      assert s[..u + 1][..u] == s[..u];
    }
    forall j | 0 < j <= |s| && InLang(Func, s[..j])
      ensures j == u + 1 && u >= 2 && s[u] == '('
    {
      var w := s[..j];
      assert w[j - 1] == s[j - 1];
      assert forall i :: 0 <= i < u ==> IsUpper(s[i]) by {
        assert forall i :: 0 <= i < u ==> s[..u][i] == s[i];
      }
      assert forall i :: 0 <= i < j - 1 ==> IsUpper(s[i]) by {
        assert forall i :: 0 <= i < j - 1 ==> w[..j - 1][i] == s[i];
      }
    }
  }

  lemma CmdLongest(s: string, u: nat)
    requires u <= |s| && AllUpper(s[..u]) && (u == |s| || !IsUpper(s[u]))
    ensures LongestMatch(Cmd, s, if u >= 2 then u else 0)
  {
    forall j | u < j <= |s|
      ensures !InLang(Cmd, s[..j])
    {
      assert s[..j][u] == s[u];
    }
  }

  lemma NumberLongest(s: string, d: nat)
    requires d <= |s| && AllDigits(s[..d]) && (d == |s| || !IsDigit(s[d]))
    ensures LongestMatch(Number, s, d)
  {
    forall j | d < j <= |s|
      ensures !InLang(Number, s[..j])
    {
      assert s[..j][d] == s[d];
    }
  }

  lemma RelopLongest(s: string)
    ensures LongestMatch(Relop, s,
      if |s| == 0 then 0
      else if s[0] == '<' then (if |s| >= 2 && s[1] in {'>', '=', Epsilon} then 2 else 1)
      else if s[0] == '>' then (if |s| >= 2 && s[1] in {'=', Epsilon} then 2 else 1)
      else if s[0] == '=' then 1
      else 0)
  {
    if |s| >= 2 {
      assert s[..2] == [s[0], s[1]];
    }
    if |s| >= 1 {
      assert s[..1] == [s[0]];
    }
    forall j | 0 < j <= |s| && InLang(Relop, s[..j])
      ensures j <= 2 && s[0] in {'<', '>', '='}
      ensures j == 2 ==> (s[0] == '<' && s[1] in {'>', '=', Epsilon}) || (s[0] == '>' && s[1] in {'=', Epsilon})
    {
      var w := s[..j];
      assert w[0] == s[0];
      if j == 2 {
        assert w[1] == s[1];
      }
    }
  }

  lemma BinopLongest(s: string)
    ensures LongestMatch(Binop, s, if |s| > 0 && s[0] in {'+', '-', '*', '/', Epsilon} then 1 else 0)
  {
    if |s| >= 1 {
      assert s[..1] == [s[0]];
    }
    forall j | 0 < j <= |s| && InLang(Binop, s[..j])
      ensures j == 1 && s[0] in {'+', '-', '*', '/', Epsilon}
    {
      assert s[..j][0] == s[0];
    }
  }

  /** Where each kind stands in the priority order */
  function Rank(k: Kind): (i: nat)
    ensures i < |Priority| && Priority[i] == k
  {
    match k
    case LParen => 0
    case RParen => 1
    case Func => 2
    case Cmd => 3
    case Var => 4
    case Number => 5
    case Relop => 6
    case Binop => 7
  }

  /** No prefix of s is a text of pattern k */
  ghost predicate NoPrefixIn(k: Kind, s: string) {
    forall m {:trigger InLang(k, s[..m])} :: 0 < m <= |s| ==> !InLang(k, s[..m])
  }

  /** The position in Priority of the first pattern that matches a non-empty
      prefix of s, searching from position i; |Priority| when none does */
  function FirstMatchFrom(s: string, i: nat): (r: nat)
    requires i <= |Priority|
    ensures i <= r <= |Priority|
    decreases |Priority| - i
  {
    if i == |Priority| then i
    else if MatchLen(Priority[i], s) > 0 then i
    else FirstMatchFrom(s, i + 1)
  }

  lemma {:induction false} FirstMatchFromSpec(s: string, i: nat)
    requires i <= |Priority|
    ensures FirstMatchFrom(s, i) < |Priority| ==> MatchLen(Priority[FirstMatchFrom(s, i)], s) > 0
    ensures forall j :: i <= j < FirstMatchFrom(s, i) ==> MatchLen(Priority[j], s) == 0
    decreases |Priority| - i
  {
    if i < |Priority| && MatchLen(Priority[i], s) == 0 {
      FirstMatchFromSpec(s, i + 1);
    }
  }

  /** String.TrimStart(' '): drops the leading spaces, and only those */
  function TrimStart(s: string): (t: string)
    ensures |t| <= |s| && s == Spaces(|s| - |t|) + t
    ensures t == [] || t[0] != ' '
  {
    if |s| > 0 && s[0] == ' ' then
      var t := TrimStart(s[1..]);
      assert s == [' '] + s[1..];
      t
    else s
  }

  predicate NoSpace(w: string) {
    forall i :: 0 <= i < |w| ==> w[i] != ' '
  }

  lemma LanguagesHaveNoSpace(k: Kind, w: string)
    requires InLang(k, w)
    ensures |w| > 0 && NoSpace(w)
  {
    if k == Func {
      assert forall i :: 0 <= i < |w| - 1 ==> w[i] == w[..|w| - 1][i];
    }
  }

  /** The token at the front of t: the first pattern in priority order that
      matches a non-empty prefix, with its longest match (LexSpec) */
  function Lex(t: string): (r: Option<Token>)
    ensures r.Some? ==> 0 < |r.value.text| <= |t| && r.value.text == t[..|r.value.text|]
  {
    var i := FirstMatchFrom(t, 0);
    if i == |Priority| then None
    else
      var k := Priority[i];
      var n := MatchLen(k, t);
      Some(Token(k, t[..n]))
  }

  /** What Lex picks: nothing when no pattern matches any prefix; otherwise a
      kind whose pattern matches, ahead of which no pattern matches anything,
      and that pattern's longest match, a text without spaces */
  lemma LexSpec(t: string)
    ensures Lex(t).None? ==> forall k :: NoPrefixIn(k, t)
    ensures Lex(t).Some? ==> forall j :: 0 <= j < Rank(Lex(t).value.kind) ==> NoPrefixIn(Priority[j], t)
    ensures Lex(t).Some? ==> LongestMatch(Lex(t).value.kind, t, |Lex(t).value.text|)
    ensures Lex(t).Some? ==> InLang(Lex(t).value.kind, Lex(t).value.text) && NoSpace(Lex(t).value.text)
  {
    var i := FirstMatchFrom(t, 0);
    FirstMatchFromSpec(t, 0);
    forall j | 0 <= j < i
      ensures NoPrefixIn(Priority[j], t)
    {
      MatchLenSpec(Priority[j], t);
    }
    if i == |Priority| {
      forall k ensures NoPrefixIn(k, t) {
        assert Priority[Rank(k)] == k;
      }
    } else {
      var k := Priority[i];
      var n := MatchLen(k, t);
      MatchLenSpec(k, t);
      LanguagesHaveNoSpace(k, t[..n]);
      assert Rank(k) == i;
    }
  }

  /** The scanner's result: the tokens in order and the trimmed text it stopped at */
  datatype Scanned = Scanned(tokens: seq<Token>, rest: string)

  /** Tokenizer.Tokenize, also returning the text where it stopped */
  function Scan(s: string): (r: Scanned)
    ensures |r.rest| <= |s|
    decreases |s|
  {
    if s == [] then Scanned([], [])
    else
      var t := TrimStart(s);
      match Lex(t)
      case None => Scanned([], t)
      case Some(tok) =>
        var r := Scan(t[|tok.text|..]);
        Scanned([tok] + r.tokens, r.rest)
  }

  function Tokenize(s: string): (toks: seq<Token>)
    ensures |toks| <= |s|
  {
    ScanLength(s);
    Scan(s).tokens
  }

  /** Every token takes at least one character of the input */
  lemma {:induction false} ScanLength(s: string)
    ensures |Scan(s).tokens| + |Scan(s).rest| <= |s|
    decreases |s|
  {
    if s != [] {
      var t := TrimStart(s);
      if Lex(t).Some? {
        var rest := t[|Lex(t).value.text|..];
        ScanLength(rest);
      }
    }
  }

  /** Scanning ends at the end of the text or at a non-space where no pattern matches */
  lemma {:induction false} ScanStops(s: string)
    ensures Scan(s).rest == [] || (Scan(s).rest[0] != ' ' && Lex(Scan(s).rest).None?)
    decreases |s|
  {
    if s != [] {
      var t := TrimStart(s);
      if Lex(t).Some? {
        ScanStops(t[|Lex(t).value.text|..]);
      }
    }
  }

  /** A non-empty text of its own kind's pattern, free of spaces */
  predicate WellFormed(tok: Token) {
    InLang(tok.kind, tok.text) && |tok.text| > 0 && NoSpace(tok.text)
  }

  /** Every token is a non-empty text of its own kind's pattern, free of spaces */
  lemma {:induction false} ScanTokensWellFormed(s: string)
    ensures forall i :: 0 <= i < |Scan(s).tokens| ==> WellFormed(Scan(s).tokens[i])
    decreases |s|
  {
    if s != [] {
      var t := TrimStart(s);
      if Lex(t).Some? {
        var tok := Lex(t).value;
        var rest := t[|tok.text|..];
        LexWellFormed(t);
        ScanStep(s);
        ScanTokensWellFormed(rest);
        WellFormedCons(tok, Scan(rest).tokens);
      }
    }
  }

  lemma LexWellFormed(t: string)
    requires Lex(t).Some?
    ensures WellFormed(Lex(t).value)
  {
    LexSpec(t);
  }

  lemma WellFormedCons(tok: Token, tail: seq<Token>)
    requires WellFormed(tok) && forall i :: 0 <= i < |tail| ==> WellFormed(tail[i])
    ensures forall i :: 0 <= i < |[tok] + tail| ==> WellFormed(([tok] + tail)[i])
  {
    forall i | 0 < i < |[tok] + tail|
      ensures WellFormed(([tok] + tail)[i])
    {
      assert ([tok] + tail)[i] == tail[i - 1];
    }
  }

  /** The input put back together: gap 0, token 0, gap 1, token 1, ..., last gap,
      rest, where gap i is a run of gaps[i] spaces */
  function Join(gaps: seq<nat>, tokens: seq<Token>, rest: string): string
    requires |gaps| == |tokens| + 1
    decreases |tokens|
  {
    if tokens == [] then Spaces(gaps[0]) + rest
    else Spaces(gaps[0]) + tokens[0].text + Join(gaps[1..], tokens[1..], rest)
  }

  /** How many spaces Scan skips before each token and before the rest */
  function Gaps(s: string): (g: seq<nat>)
    decreases |s|
  {
    if s == [] then [0]
    else
      var t := TrimStart(s);
      match Lex(t)
      case None => [|s| - |t|]
      case Some(tok) => [|s| - |t|] + Gaps(t[|tok.text|..])
  }

  lemma {:induction false} GapsLength(s: string)
    ensures |Gaps(s)| == |Scan(s).tokens| + 1
    decreases |s|
  {
    if s != [] {
      var t := TrimStart(s);
      if Lex(t).Some? {
        GapsLength(t[|Lex(t).value.text|..]);
      }
    }
  }

  lemma JoinCons(lead: nat, tok: Token, gaps: seq<nat>, tokens: seq<Token>, rest: string)
    requires |gaps| == |tokens| + 1
    ensures Join([lead] + gaps, [tok] + tokens, rest) == Spaces(lead) + tok.text + Join(gaps, tokens, rest)
  {
    assert ([lead] + gaps)[1..] == gaps;
    assert ([tok] + tokens)[1..] == tokens;
  }

  /** One step of the scanner: skip the spaces, take the token Lex picks,
      continue on what follows it */
  lemma ScanStep(s: string)
    requires s != [] && Lex(TrimStart(s)).Some?
    ensures var t := TrimStart(s); var tok := Lex(t).value; var rest := t[|tok.text|..];
      Scan(s) == Scanned([tok] + Scan(rest).tokens, Scan(rest).rest)
  {
  }

  lemma GapsStep(s: string)
    requires s != [] && Lex(TrimStart(s)).Some?
    ensures var t := TrimStart(s); var tok := Lex(t).value; var rest := t[|tok.text|..];
      Gaps(s) == [|s| - |t|] + Gaps(rest)
  {
  }

  lemma TextStep(s: string)
    requires s != [] && Lex(TrimStart(s)).Some?
    ensures var t := TrimStart(s); var tok := Lex(t).value; var rest := t[|tok.text|..];
      s == Spaces(|s| - |t|) + tok.text + rest
  {
    var t := TrimStart(s);
    SplitText(s, |s| - |t|, t, |Lex(t).value.text|);
  }

  lemma SplitText(s: string, lead: nat, t: string, n: nat)
    requires n <= |t| && s == Spaces(lead) + t
    ensures s == Spaces(lead) + t[..n] + t[n..]
  {
    assert t == t[..n] + t[n..];
  }

  /** Nothing is lost or invented: the input is the tokens' texts, each after
      its run of skipped spaces, followed by the unscanned rest */
  lemma {:induction false} ScanDecomposes(s: string)
    ensures |Gaps(s)| == |Scan(s).tokens| + 1
    ensures Join(Gaps(s), Scan(s).tokens, Scan(s).rest) == s
    decreases |s|
  {
    GapsLength(s);
    if s == [] {
    } else if Lex(TrimStart(s)).None? {
      DecomposeStop(s);
    } else {
      var t := TrimStart(s);
      ScanDecomposes(t[|Lex(t).value.text|..]);
      DecomposeStep(s);
    }
  }

  lemma DecomposeStop(s: string)
    requires s != [] && Lex(TrimStart(s)).None?
    ensures Join(Gaps(s), Scan(s).tokens, Scan(s).rest) == s
  {
    assert Scan(s) == Scanned([], TrimStart(s));
  }

  lemma DecomposeStep(s: string)
    requires s != [] && Lex(TrimStart(s)).Some?
    requires var t := TrimStart(s); var rest := t[|Lex(t).value.text|..];
      |Gaps(rest)| == |Scan(rest).tokens| + 1 && Join(Gaps(rest), Scan(rest).tokens, Scan(rest).rest) == rest
    ensures |Gaps(s)| == |Scan(s).tokens| + 1
    ensures Join(Gaps(s), Scan(s).tokens, Scan(s).rest) == s
  {
    var t := TrimStart(s);
    var tok := Lex(t).value;
    var rest := t[|tok.text|..];
    ScanStep(s);
    GapsStep(s);
    TextStep(s);
    JoinCons(|s| - |t|, tok, Gaps(rest), Scan(rest).tokens, Scan(rest).rest);
  }

  /** The text at the position of the i-th token: that token, the later gaps
      and tokens, and the rest */
  function From(gaps: seq<nat>, tokens: seq<Token>, rest: string, i: nat): string
    requires |gaps| == |tokens| + 1 && i < |tokens|
  {
    tokens[i].text + Join(gaps[i + 1..], tokens[i + 1..], rest)
  }

  /** The text at the first token's position is the trimmed input */
  lemma FromFirst(s: string)
    requires s != [] && Lex(TrimStart(s)).Some?
    ensures |Gaps(s)| == |Scan(s).tokens| + 1 && |Scan(s).tokens| > 0
    ensures From(Gaps(s), Scan(s).tokens, Scan(s).rest, 0) == TrimStart(s)
  {
    var t := TrimStart(s);
    var tok := Lex(t).value;
    var rest := t[|tok.text|..];
    ScanDecomposes(rest);
    GapsLength(s);
    assert Gaps(s)[1..] == Gaps(rest);
    assert Scan(s).tokens[1..] == Scan(rest).tokens;
    assert t == tok.text + rest;
  }

  /** Shifting past a first token and its gap moves every later position down by one */
  lemma FromLater(lead: nat, tok: Token, gaps: seq<nat>, tokens: seq<Token>, rest: string, j: nat)
    requires |gaps| == |tokens| + 1 && 0 < j <= |tokens|
    ensures From([lead] + gaps, [tok] + tokens, rest, j) == From(gaps, tokens, rest, j - 1)
  {
    assert ([lead] + gaps)[j + 1..] == gaps[j..];
    assert ([tok] + tokens)[j + 1..] == tokens[j..];
  }

  /** Where the scanner stands when it reads the i-th token: the text left
      after the first i tokens, with its leading spaces dropped */
  function At(s: string, i: nat): string
    requires i < |Scan(s).tokens|
    decreases |s|
  {
    var t := TrimStart(s);
    var tok := Lex(t).value;
    if i == 0 then t else At(t[|tok.text|..], i - 1)
  }

  lemma {:induction false} LexAt(s: string, i: nat)
    requires i < |Scan(s).tokens|
    ensures Lex(At(s, i)) == Some(Scan(s).tokens[i])
    decreases |s|
  {
    ScanHasToken(s);
    var t := TrimStart(s);
    var tok := Lex(t).value;
    var rest := t[|tok.text|..];
    ScanStep(s);
    if i == 0 {
      assert At(s, 0) == t;
    } else {
      LexAt(rest, i - 1);
      assert At(s, i) == At(rest, i - 1);
      ConsIndex(tok, Scan(rest).tokens, i);
    }
  }

  lemma ConsIndex(tok: Token, tail: seq<Token>, i: nat)
    requires 0 < i <= |tail|
    ensures ([tok] + tail)[i] == tail[i - 1]
  {
  }

  lemma ScanHasToken(s: string)
    requires |Scan(s).tokens| > 0
    ensures s != [] && Lex(TrimStart(s)).Some?
  {
  }

  lemma {:induction false} AtIsFrom(s: string, i: nat)
    requires i < |Scan(s).tokens|
    ensures |Gaps(s)| == |Scan(s).tokens| + 1
    ensures At(s, i) == From(Gaps(s), Scan(s).tokens, Scan(s).rest, i)
    decreases |s|
  {
    GapsLength(s);
    var t := TrimStart(s);
    var tok := Lex(t).value;
    var rest := t[|tok.text|..];
    ScanStep(s);
    GapsStep(s);
    if i == 0 {
      FromFirst(s);
    } else {
      AtIsFrom(rest, i - 1);
      FromLater(|s| - |t|, tok, Gaps(rest), Scan(rest).tokens, Scan(rest).rest, i);
    }
  }

  /** Each token is what Lex picks at its own position: the first pattern in
      priority order that matches there, with its longest match */
  lemma ScanPicksByPriority(s: string)
    ensures |Gaps(s)| == |Scan(s).tokens| + 1
    ensures forall i :: 0 <= i < |Scan(s).tokens| ==>
      Lex(From(Gaps(s), Scan(s).tokens, Scan(s).rest, i)) == Some(Scan(s).tokens[i])
  {
    GapsLength(s);
    forall i | 0 <= i < |Scan(s).tokens|
      ensures Lex(From(Gaps(s), Scan(s).tokens, Scan(s).rest, i)) == Some(Scan(s).tokens[i])
    {
      LexAt(s, i);
      AtIsFrom(s, i);
    }
  }

  /* What the priority order makes of particular inputs */

  lemma {:induction false} FirstMatchIs(x: string, j: nat, i: nat)
    requires j <= i < |Priority| && MatchLen(Priority[i], x) > 0
    requires forall m :: j <= m < i ==> MatchLen(Priority[m], x) == 0
    ensures FirstMatchFrom(x, j) == i
    decreases i - j
  {
    if j < i {
      FirstMatchIs(x, j + 1, i);
    }
  }

  lemma {:induction false} NoMatchFrom(x: string, j: nat)
    requires j <= |Priority|
    requires forall m :: j <= m < |Priority| ==> MatchLen(Priority[m], x) == 0
    ensures FirstMatchFrom(x, j) == |Priority|
    decreases |Priority| - j
  {
    if j < |Priority| {
      NoMatchFrom(x, j + 1);
    }
  }

  /** Lex picks the pattern at rank i when it is the first whose matcher consumes something */
  lemma LexPicks(x: string, i: nat)
    requires i < |Priority| && MatchLen(Priority[i], x) > 0
    requires forall m :: 0 <= m < i ==> MatchLen(Priority[m], x) == 0
    ensures Lex(x) == Some(Token(Priority[i], x[..MatchLen(Priority[i], x)]))
  {
    FirstMatchIs(x, 0, i);
  }

  lemma {:induction false} UpperRunOf(w: string, r: string)
    requires AllUpper(w) && (r == [] || !IsUpper(r[0]))
    ensures UpperRun(w + r) == |w|
    decreases |w|
  {
    if w != [] {
      assert (w + r)[1..] == w[1..] + r;
      UpperRunOf(w[1..], r);
    }
  }

  lemma {:induction false} DigitRunOf(d: string, r: string)
    requires AllDigits(d) && (r == [] || !IsDigit(r[0]))
    ensures DigitRun(d + r) == |d|
    decreases |d|
  {
    if d != [] {
      assert (d + r)[1..] == d[1..] + r;
      DigitRunOf(d[1..], r);
    }
  }

  /** A name of two or more capitals directly followed by "(" is one FUNC token, "(" included */
  lemma LexFunc(name: string, r: string)
    requires |name| >= 2 && AllUpper(name)
    ensures Lex(name + "(" + r) == Some(Token(Func, name + "("))
  {
    var x := name + "(" + r;
    assert x == name + ("(" + r);
    UpperRunOf(name, "(" + r);
    assert x[..|name| + 1] == name + "(";
    LexPicks(x, 2);
  }

  /** A maximal run of two or more capitals not followed by "(" is one CMD token */
  lemma LexCmd(w: string, r: string)
    requires |w| >= 2 && AllUpper(w)
    requires r == [] || (!IsUpper(r[0]) && r[0] != '(')
    ensures Lex(w + r) == Some(Token(Cmd, w))
  {
    var x := w + r;
    UpperRunOf(w, r);
    assert x[..|w|] == w;
    LexPicks(x, 3);
  }

  /** A single capital not followed by another capital is a VAR token */
  lemma LexVar(c: char, r: string)
    requires IsUpper(c) && (r == [] || !IsUpper(r[0]))
    ensures Lex([c] + r) == Some(Token(Var, [c]))
  {
    var x := [c] + r;
    UpperRunOf([c], r);
    assert x[..1] == [c];
    LexPicks(x, 4);
  }

  /** A maximal run of digits is one NUMBER token; there is no sign in it */
  lemma LexNumber(d: string, r: string)
    requires |d| >= 1 && AllDigits(d) && (r == [] || !IsDigit(r[0]))
    ensures Lex(d + r) == Some(Token(Number, d))
  {
    var x := d + r;
    DigitRunOf(d, r);
    assert x[..|d|] == d;
    LexPicks(x, 5);
  }

  /** A minus sign is always a BINOP of its own, even directly before digits */
  lemma LexMinus(r: string)
    ensures Lex("-" + r) == Some(Token(Binop, "-"))
  {
    var x := "-" + r;
    assert x[..1] == "-";
    LexPicks(x, 7);
  }

  /** The two-character relational operators win over their one-character prefixes */
  lemma LexRelopPair(w: string, r: string)
    requires w in {"<>", "<=", ">=", ['<', Epsilon], ['>', Epsilon]}
    ensures Lex(w + r) == Some(Token(Relop, w))
  {
    var x := w + r;
    assert x[0] == w[0] && x[1] == w[1];
    assert x[..2] == w;
    LexPicks(x, 6);
  }

  /** A lone "=" (the one in LET) is a RELOP token */
  lemma LexEquals(r: string)
    ensures Lex("=" + r) == Some(Token(Relop, "="))
  {
    var x := "=" + r;
    assert x[..1] == "=";
    LexPicks(x, 6);
  }

  /** A lone "<" or ">", not followed by a character that would extend it, is a RELOP token */
  lemma LexLoneRelop(c: char, r: string)
    requires c in {'<', '>'} && (r == [] || r[0] !in {'>', '=', Epsilon})
    ensures Lex([c] + r) == Some(Token(Relop, [c]))
  {
    var x := [c] + r;
    assert x[0] == c && x[..1] == [c];
    if r != [] {
      assert x[1] == r[0];
    }
    LexPicks(x, 6);
  }

  /** Each arithmetic operator is a BINOP token of its own */
  lemma LexOperator(o: char, r: string)
    requires o in {'+', '-', '*', '/'}
    ensures Lex([o] + r) == Some(Token(Binop, [o]))
  {
    var x := [o] + r;
    assert x[0] == o && x[..1] == [o];
    LexPicks(x, 7);
  }

  /** The characters, other than the skipped space, at which no pattern can start */
  predicate Unmatched(c: char) {
    c != ' ' && !IsUpper(c) && !IsDigit(c) && c !in {'(', ')', '<', '>', '=', '+', '-', '*', '/', Epsilon}
  }

  /** At a character no pattern can start with, Lex finds nothing */
  lemma LexUnmatched(c: char, r: string)
    requires Unmatched(c)
    ensures Lex([c] + r) == None
  {
    var x := [c] + r;
    assert x[0] == c;
    NoMatchFrom(x, 0);
  }

  /** Scanning past one token: Tokenize emits what Lex picks on the trimmed
      text, then carries on after it */
  lemma TokenizeCons(s: string)
    requires TrimStart(s) != [] && Lex(TrimStart(s)).Some?
    ensures Tokenize(s) == [Lex(TrimStart(s)).value] + Tokenize(TrimStart(s)[|Lex(TrimStart(s)).value.text|..])
  {
    ScanStep(s);
  }

  lemma LexEmpty()
    ensures Lex([]) == None
  {
    NoMatchFrom([], 0);
  }

  lemma SameTrimSameScan(x: string, y: string)
    requires x != [] && y != [] && TrimStart(x) == TrimStart(y)
    ensures Scan(x) == Scan(y)
  {
  }

  /** Spaces before the text change nothing */
  lemma {:induction false} LeadingSpaces(n: nat, s: string)
    ensures Tokenize(Spaces(n) + s) == Tokenize(s)
    decreases n
  {
    if n > 0 {
      var x := Spaces(n) + s;
      var y := Spaces(n - 1) + s;
      assert x == [' '] + y;
      assert TrimStart(x) == TrimStart(y);
      LeadingSpaces(n - 1, s);
      if y == [] {
        LexEmpty();
        assert Scan(x) == Scanned([], []);
      } else {
        SameTrimSameScan(x, y);
        assert Tokenize(x) == Tokenize(y);
      }
    } else {
      assert Spaces(n) + s == s;
    }
  }

  /** Empty and all-space texts have no tokens */
  lemma BlankInput(n: nat)
    ensures Tokenize(Spaces(n)) == []
  {
    LeadingSpaces(n, []);
    assert Spaces(n) + [] == Spaces(n);
  }

  /** A text that starts with an unmatchable character has no tokens */
  lemma OpensUnmatched(c: char, r: string)
    requires Unmatched(c)
    ensures Tokenize([c] + r) == []
  {
    LexUnmatched(c, r);
    assert TrimStart([c] + r) == [c] + r;
  }

  /** An unmatchable character ends every run of upper-case letters */
  lemma {:induction false} UpperRunCut(t: string, c: char, r: string)
    requires Unmatched(c)
    ensures UpperRun(t + [c] + r) == UpperRun(t)
    decreases |t|
  {
    var x := t + [c] + r;
    if t == [] {
      assert x[0] == c;
    } else {
      assert x[0] == t[0] && x[1..] == t[1..] + [c] + r;
      UpperRunCut(t[1..], c, r);
    }
  }

  /** An unmatchable character ends every run of digits */
  lemma {:induction false} DigitRunCut(t: string, c: char, r: string)
    requires Unmatched(c)
    ensures DigitRun(t + [c] + r) == DigitRun(t)
    decreases |t|
  {
    var x := t + [c] + r;
    if t == [] {
      assert x[0] == c;
    } else {
      assert x[0] == t[0] && x[1..] == t[1..] + [c] + r;
      DigitRunCut(t[1..], c, r);
    }
  }

  /** No match runs into an unmatchable character: what follows it is never read */
  lemma MatchLenCut(k: Kind, t: string, c: char, r: string)
    requires Unmatched(c)
    ensures MatchLen(k, t + [c] + r) == MatchLen(k, t)
  {
    var x := t + [c] + r;
    assert x[|t|] == c;
    assert forall i :: 0 <= i < |t| ==> x[i] == t[i];
    match k
    case Func => UpperRunCut(t, c, r);
    case Cmd => UpperRunCut(t, c, r);
    case Number => DigitRunCut(t, c, r);
    case _ =>
  }

  lemma {:induction false} FirstMatchCut(t: string, c: char, r: string, i: nat)
    requires Unmatched(c) && i <= |Priority|
    ensures FirstMatchFrom(t + [c] + r, i) == FirstMatchFrom(t, i)
    decreases |Priority| - i
  {
    if i < |Priority| {
      MatchLenCut(Priority[i], t, c, r);
      FirstMatchCut(t, c, r, i + 1);
    }
  }

  /** Lex picks the same token whatever follows an unmatchable character */
  lemma LexCut(t: string, c: char, r: string)
    requires Unmatched(c)
    ensures Lex(t + [c] + r) == Lex(t)
  {
    var x := t + [c] + r;
    FirstMatchCut(t, c, r, 0);
    var i := FirstMatchFrom(t, 0);
    if i < |Priority| {
      MatchLenCut(Priority[i], t, c, r);
      var n := MatchLen(Priority[i], t);
      assert x[..n] == t[..n];
    }
  }

  lemma {:induction false} TrimCut(p: string, c: char, r: string)
    requires Unmatched(c)
    ensures TrimStart(p + [c] + r) == TrimStart(p) + [c] + r
    decreases |p|
  {
    var x := p + [c] + r;
    if p == [] {
      assert x[0] == c;
    } else {
      assert x[0] == p[0] && x[1..] == p[1..] + [c] + r;
      TrimCut(p[1..], c, r);
    }
  }

  /** At an unmatchable character scanning stops for good: the tokens of a
      text are those of its part before the first such character */
  lemma {:induction false} StopsAtUnmatched(p: string, c: char, r: string)
    requires Unmatched(c)
    ensures Tokenize(p + [c] + r) == Tokenize(p)
    decreases |p|
  {
    var t := TrimStart(p);
    if p == [] {
      assert p + [c] + r == [c] + r;
      OpensUnmatched(c, r);
    } else if Lex(t).None? {
      CutNothing(p, c, r);
    } else {
      StopsAtUnmatched(t[|Lex(t).value.text|..], c, r);
      CutStep(p, c, r);
    }
  }

  lemma CutNothing(p: string, c: char, r: string)
    requires Unmatched(c) && Lex(TrimStart(p)).None?
    ensures Tokenize(p + [c] + r) == Tokenize(p) == []
  {
    TrimCut(p, c, r);
    LexCut(TrimStart(p), c, r);
    NothingLexed(p);
    NothingLexed(p + [c] + r);
  }

  /** One token of the text before an unmatchable character is one token of the whole */
  lemma CutStep(p: string, c: char, r: string)
    requires Unmatched(c) && TrimStart(p) != [] && Lex(TrimStart(p)).Some?
    requires var t := TrimStart(p); var n := |Lex(t).value.text|;
      Tokenize(t[n..] + [c] + r) == Tokenize(t[n..])
    ensures Tokenize(p + [c] + r) == Tokenize(p)
  {
    var x := p + [c] + r;
    var t := TrimStart(p);
    var tok := Lex(t).value;
    var n := |tok.text|;
    TrimCut(p, c, r);
    LexCut(t, c, r);
    assert TrimStart(x) == t + [c] + r;
    assert Lex(TrimStart(x)) == Some(tok);
    TokenizeCons(x);
    assert Tokenize(x) == [tok] + Tokenize((t + [c] + r)[n..]);
    DropAppend(t, c, r, n);
    TokenizeCons(p);
  }

  lemma DropAppend(t: string, c: char, r: string, n: nat)
    requires n <= |t|
    ensures (t + [c] + r)[n..] == t[n..] + [c] + r
  {
  }

  lemma NothingLexed(s: string)
    requires Lex(TrimStart(s)).None?
    ensures Tokenize(s) == []
  {
  }
}
