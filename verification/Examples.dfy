/** Worked examples on concrete token queues */
module Examples {
  import opened Failures
  import opened Int32
  import opened Tokenizer
  import opened Evaluator

  function N(d: string): Token { Token(Number, d) }
  function Op(o: string): Token { Token(Binop, o) }

  /** A one-digit NUMBER token reads as its digit */
  lemma Digit(c: Ctx, d: char, rest: seq<Token>)
    requires '0' <= d <= '9'
    ensures Primary(c, [N([d])] + rest, 0) == Ok(Eval(d as int - '0' as int, rest, 0))
  {
    assert ([N([d])] + rest)[1..] == rest;
    assert AllDigits([d]) && [d][..0] == [];
    assert DigitsValue([d]) == d as int - '0' as int;
  }

  /** 1+2*3 is 7: * binds tighter than + */
  lemma TimesBeforePlus(c: Ctx)
    ensures Expression(c, [N("1"), Op("+"), N("2"), Op("*"), N("3")], 0) == Ok(Eval(7, [], 0))
  {
    var t := [N("1"), Op("+"), N("2"), Op("*"), N("3")];
    Digit(c, '1', t[1..]);
    Digit(c, '2', t[3..]);
    Digit(c, '3', []);
    assert [N("1")] + t[1..] == t;
    assert [N("2")] + t[3..] == t[2..];
    assert [N("3")] + [] == t[4..];
    assert Climb(c, t[3..], 2, 1, 0) == Ok(Eval(6, [], 0));
  }

  /** 8-2-1 is 5: operators of one level fold from the left */
  lemma MinusFromLeft(c: Ctx)
    ensures Expression(c, [N("8"), Op("-"), N("2"), Op("-"), N("1")], 0) == Ok(Eval(5, [], 0))
  {
    var t := [N("8"), Op("-"), N("2"), Op("-"), N("1")];
    Digit(c, '8', t[1..]);
    Digit(c, '2', t[3..]);
    Digit(c, '1', []);
    assert [N("8")] + t[1..] == t;
    assert [N("2")] + t[3..] == t[2..];
    assert [N("1")] + [] == t[4..];
    assert Climb(c, t[3..], 6, 0, 0) == Ok(Eval(5, [], 0));
  }

  /** -7/2 is 0 with "7 / 2" left over: the minus sign is a primary of value 0 */
  lemma NoUnaryMinus(c: Ctx)
    ensures Expression(c, [Op("-"), N("7"), Op("/"), N("2")], 0) == Ok(Eval(0, [N("7"), Op("/"), N("2")], 0))
  {
  }

  /** A space and a run of digits is one NUMBER token */
  lemma SpacedNumber(d: string)
    requires |d| >= 1 && AllDigits(d)
    ensures Tokenize(" " + d) == [Token(Number, d)]
  {
    var s := " " + d;
    assert s[1..] == d;
    assert TrimStart(s) == d;
    assert d + "" == d;
    LexNumber(d, "");
    TokenizeCons(s);
    assert d[|d|..] == [];
  }

  /** A command word, a space and a number, as in "GOTO 10", are two tokens */
  lemma CommandAndNumber(w: string, d: string)
    requires |w| >= 2 && AllUpper(w) && |d| >= 1 && AllDigits(d)
    ensures Tokenize(w + " " + d) == [Token(Cmd, w), Token(Number, d)]
  {
    assert w + " " + d == w + (" " + d);
    CommandThen(w, " " + d);
    SpacedNumber(d);
  }

  /** A command word followed by a space is one CMD token, then the tokens of the rest */
  lemma CommandThen(w: string, rest: string)
    requires |w| >= 2 && AllUpper(w) && rest != [] && rest[0] == ' '
    ensures Tokenize(w + rest) == [Token(Cmd, w)] + Tokenize(rest)
  {
    var s := w + rest;
    assert s[0] == w[0];
    assert TrimStart(s) == s;
    LexCmd(w, rest);
    TokenizeCons(s);
    assert s[|w|..] == rest;
  }

  lemma TokenizeGoto()
    ensures Tokenize("GOTO 10") == [Token(Cmd, "GOTO"), Token(Number, "10")]
  {
    assert "GOTO 10" == "GOTO" + " " + "10";
    CommandAndNumber("GOTO", "10");
  }

  /* Tokenizing lines whose tokens are separated by single spaces */

  /** A token that needs no separator before a space: a command word, a
      one-letter variable, a number, a one-character comparison or an
      arithmetic operator */
  predicate Simple(tok: Token) {
    match tok.kind
    case Cmd => |tok.text| >= 2 && AllUpper(tok.text)
    case Var => |tok.text| == 1 && IsUpper(tok.text[0])
    case Number => |tok.text| >= 1 && AllDigits(tok.text)
    case Relop => tok.text in {"<", ">", "="}
    case Binop => tok.text in {"+", "-", "*", "/"}
    case _ => false
  }

  /** The token texts joined by single spaces */
  function Spaced(toks: seq<Token>): string
    decreases |toks|
  {
    if toks == [] then []
    else if |toks| == 1 then toks[0].text
    else toks[0].text + " " + Spaced(toks[1..])
  }

  /** Simple tokens written with one space between them are read back as
      exactly those tokens */
  lemma {:induction false} TokenizeSpaced(toks: seq<Token>)
    requires forall i :: 0 <= i < |toks| ==> Simple(toks[i])
    ensures Tokenize(Spaced(toks)) == toks
    decreases |toks|
  {
    if |toks| == 1 {
      SimpleStep(toks[0], []);
      assert toks[0].text + [] == Spaced(toks);
    } else if |toks| > 1 {
      var rest := Spaced(toks[1..]);
      SimpleStep(toks[0], " " + rest);
      assert toks[0].text + (" " + rest) == Spaced(toks);
      TokenizeSpaced(toks[1..]);
      assert Spaces(1) == " ";
      LeadingSpaces(1, rest);
      assert toks == [toks[0]] + toks[1..];
    }
  }

  /** A simple token, then the end of the text or a space */
  lemma SimpleStep(tok: Token, rest: string)
    requires Simple(tok) && (rest == [] || rest[0] == ' ')
    ensures Tokenize(tok.text + rest) == [tok] + Tokenize(rest)
  {
    var s := tok.text + rest;
    SimpleLex(tok, rest);
    assert s[0] == tok.text[0];
    assert TrimStart(s) == s;
    TokenizeCons(s);
    assert s[|tok.text|..] == rest;
  }

  lemma SimpleLex(tok: Token, rest: string)
    requires Simple(tok) && (rest == [] || rest[0] == ' ')
    ensures Lex(tok.text + rest) == Some(tok) && tok.text[0] != ' '
  {
    var w := tok.text;
    match tok.kind
    case Cmd => LexCmd(w, rest); assert IsUpper(w[0]);
    case Var => assert w == [w[0]]; LexVar(w[0], rest);
    case Number => LexNumber(w, rest); assert IsDigit(w[0]);
    case Relop =>
      if w == "=" {
        LexEquals(rest);
      } else {
        assert w == [w[0]];
        LexLoneRelop(w[0], rest);
      }
    case Binop => assert w == [w[0]]; LexOperator(w[0], rest);
  }
}
