/** The program store: a table of source lines keyed by their labels and kept
    in ascending label order (a SortedList<int, string>), and the loader that
    fills it from the lines of a program text. */
module LineTable {
  import opened Failures
  import opened Int32

  /** One stored line: its label and the statement text after it */
  datatype Line = Line(key: i32, text: string)

  type Table = seq<Line>

  /** Ascending by label, so no label occurs twice */
  predicate Sorted(t: Table) {
    forall i, j :: 0 <= i < j < |t| ==> t[i].key < t[j].key
  }

  function KeySet(t: Table): set<int> {
    set i | 0 <= i < |t| :: t[i].key
  }

  /** SortedList.Add: the line goes in at its place in label order; a label
      already present is an error */
  function Insert(t: Table, l: Line): (r: Result<Table>)
    ensures r.Ok? ==> |r.value| == |t| + 1 && l in r.value
    ensures r.Fail? ==> r.error == DuplicateLabel(l.key)
    decreases |t|
  {
    if t == [] then Ok([l])
    else if l.key < t[0].key then Ok([l] + t)
    else if l.key == t[0].key then Fail(DuplicateLabel(l.key))
    else
      var r :- Insert(t[1..], l);
      Ok([t[0]] + r)
  }

  lemma KeySetCons(l: Line, t: Table)
    ensures KeySet([l] + t) == {l.key} + KeySet(t)
  {
    var s := [l] + t;
    forall k | k in KeySet(s) ensures k in {l.key} + KeySet(t) {
      var i :| 0 <= i < |s| && s[i].key == k;
      if i > 0 {
        assert t[i - 1].key == k;
      }
    }
    forall k | k in KeySet(t) ensures k in KeySet(s) {
      var i :| 0 <= i < |t| && t[i].key == k;
      assert s[i + 1].key == k;
    }
    assert s[0].key == l.key;
  }

  /** Adding a line fails exactly when its label is taken; otherwise the table
      stays in order and gains exactly that line */
  lemma InsertSpec(t: Table, l: Line)
    requires Sorted(t)
    ensures Insert(t, l).Ok? <==> l.key !in KeySet(t)
    ensures Insert(t, l).Fail? ==> Insert(t, l).error == DuplicateLabel(l.key)
    ensures Insert(t, l).Ok? ==> var r := Insert(t, l).value;
      && Sorted(r)
      && multiset(r) == multiset(t) + multiset{l}
      && KeySet(r) == KeySet(t) + {l.key}
  {
    InsertFails(t, l);
    InsertContents(t, l);
    InsertSorted(t, l);
  }

  lemma {:induction false} InsertFails(t: Table, l: Line)
    requires Sorted(t)
    ensures Insert(t, l).Ok? <==> l.key !in KeySet(t)
    ensures Insert(t, l).Fail? ==> Insert(t, l).error == DuplicateLabel(l.key)
    decreases |t|
  {
    if t != [] {
      assert t == [t[0]] + t[1..];
      KeySetCons(t[0], t[1..]);
      if l.key < t[0].key {
        SmallerThanAll(t, l.key);
      } else if l.key > t[0].key {
        InsertFails(t[1..], l);
      }
    }
  }

  lemma {:induction false} InsertContents(t: Table, l: Line)
    ensures Insert(t, l).Ok? ==> var r := Insert(t, l).value;
      && multiset(r) == multiset(t) + multiset{l}
      && KeySet(r) == KeySet(t) + {l.key}
    decreases |t|
  {
    if t == [] {
      KeySetCons(l, []);
    } else {
      assert t == [t[0]] + t[1..];
      KeySetCons(t[0], t[1..]);
      if l.key < t[0].key {
        KeySetCons(l, t);
      } else if l.key > t[0].key {
        InsertContents(t[1..], l);
        var r := Insert(t[1..], l);
        if r.Ok? {
          KeySetCons(t[0], r.value);
        }
      }
    }
  }

  lemma {:induction false} InsertSorted(t: Table, l: Line)
    requires Sorted(t)
    ensures Insert(t, l).Ok? ==> Sorted(Insert(t, l).value)
    decreases |t|
  {
    if t != [] && l.key > t[0].key {
      assert t == [t[0]] + t[1..];
      InsertSorted(t[1..], l);
      InsertContents(t[1..], l);
      var r := Insert(t[1..], l);
      if r.Ok? {
        ConsSorted(t[0], t[1..], r.value, l);
      }
    }
  }

  /** A label below the first of a sorted table is in no line of it */
  lemma SmallerThanAll(t: Table, k: int)
    requires Sorted(t) && t != [] && k < t[0].key
    ensures k !in KeySet(t)
  {
    forall i | 0 <= i < |t| ensures t[i].key != k {
      if i > 0 {
        assert t[0].key < t[i].key;
      }
    }
  }

  /** Putting back the first line in front of the rest with l added keeps the order */
  lemma ConsSorted(first: Line, rest: Table, r: Table, l: Line)
    requires Sorted([first] + rest) && Sorted(r)
    requires multiset(r) == multiset(rest) + multiset{l} && first.key < l.key
    ensures Sorted([first] + r)
  {
    var s := [first] + r;
    forall j | 0 <= j < |r| ensures first.key < r[j].key {
      assert r[j] in multiset(r);
      if r[j] != l {
        assert r[j] in multiset(rest);
        assert r[j] in rest;
        var k :| 0 <= k < |rest| && rest[k] == r[j];
        var fr := [first] + rest;
        assert fr[0] == first && fr[k + 1] == r[j];
        assert fr[0].key < fr[k + 1].key;
      }
    }
    forall i, j | 0 <= i < j < |s| ensures s[i].key < s[j].key {
      if i == 0 {
        assert s[j] == r[j - 1];
      } else {
        assert s[i] == r[i - 1] && s[j] == r[j - 1];
      }
    }
  }

  /** IndexOfKey: the position of a label in the table, -1 when absent */
  function IndexOfKey(t: Table, k: int): (i: int)
    ensures -1 <= i < |t|
    ensures i >= 0 ==> t[i].key == k
    ensures i == -1 <==> k !in KeySet(t)
    decreases |t|
  {
    if t == [] then -1
    else if t[0].key == k then 0
    else
      var i := IndexOfKey(t[1..], k);
      KeySetCons(t[0], t[1..]);
      assert t == [t[0]] + t[1..];
      if i == -1 then -1 else i + 1
  }

  /** The position of the first space, or the length when there is none */
  function FirstSpace(s: string): (n: nat)
    ensures n <= |s|
    ensures forall i :: 0 <= i < n ==> s[i] != ' '
    ensures n < |s| ==> s[n] == ' '
  {
    if s == [] || s[0] == ' ' then 0 else 1 + FirstSpace(s[1..])
  }

  /** One source line: Split(' ', 2) cuts it at the first space; the label is
      int.Parse of the part before, read first, so a bad label is reported
      even when the space is missing; the statement is the rest, verbatim */
  function SplitLine(line: string): (r: Result<Line>)
    ensures r.Ok? ==> |r.value.text| < |line| && r.value.text == line[|line| - |r.value.text|..]
    ensures r.Fail? ==> r.error == MissingSpace(line) || r.error == Overflow || r.error.BadNumber?
  {
    var n := FirstSpace(line);
    var key :- ParseInt32(line[..n]);
    if n == |line| then Fail(MissingSpace(line))
    else Ok(Line(key, line[n + 1..]))
  }

  /** What SplitLine reads: a line is accepted exactly when it is a label
      without spaces, one space, and a statement; the parts come back unchanged */
  lemma SplitLineSpec(line: string)
    ensures var r := SplitLine(line); var n := FirstSpace(line);
      && (r.Ok? <==> n < |line| && ParseInt32(line[..n]).Ok?)
      && (r.Ok? ==> line == line[..n] + " " + r.value.text && ParseInt32(line[..n]) == Ok(r.value.key))
      && (r.Fail? && n == |line| && ParseInt32(line[..n]).Ok? ==> r.error == MissingSpace(line))
      && (r.Fail? && ParseInt32(line[..n]).Fail? ==> r.error == ParseInt32(line[..n]).error)
  {
    var n := FirstSpace(line);
    if n < |line| {
      CutAt(line, n);
    }
  }

  lemma CutAt(s: string, n: nat)
    requires n < |s| && s[n] == ' '
    ensures s == s[..n] + " " + s[n + 1..]
  {
    assert s == s[..n] + [s[n]] + s[n + 1..];
  }

  lemma NoSpaceInDecimal(k: int)
    ensures forall i :: 0 <= i < |Decimal(k)| ==> Decimal(k)[i] != ' '
  {
    var d := Decimal(k);
    forall i | 0 <= i < |d| ensures d[i] != ' ' {
      if k < 0 {
        assert d == "-" + NatDigits(-k);
        if i > 0 {
          assert d[i] == NatDigits(-k)[i - 1];
        }
      }
    }
  }

  lemma {:induction false} FirstSpaceAfter(head: string, tail: string)
    requires forall i :: 0 <= i < |head| ==> head[i] != ' '
    ensures FirstSpace(head + " " + tail) == |head|
    decreases |head|
  {
    if head != [] {
      assert (head + " " + tail)[1..] == head[1..] + " " + tail;
      FirstSpaceAfter(head[1..], tail);
    }
  }

  /** A label printed in decimal, a space, and any statement text (spaces
      included) read back as that label and that text */
  lemma SplitPrinted(k: i32, text: string)
    ensures SplitLine(Decimal(k) + " " + text) == Ok(Line(k, text))
  {
    var line := Decimal(k) + " " + text;
    NoSpaceInDecimal(k);
    FirstSpaceAfter(Decimal(k), text);
    assert line[..|Decimal(k)|] == Decimal(k);
    assert line[|Decimal(k)| + 1..] == text;
    ParseDecimal(k);
  }

  /** Every line of the program text is well formed */
  predicate AllParse(code: seq<string>) {
    forall i :: 0 <= i < |code| ==> SplitLine(code[i]).Ok?
  }

  /** The lines of a well-formed program text, in text order */
  function Parsed(code: seq<string>): (ls: seq<Line>)
    requires AllParse(code)
    ensures |ls| == |code|
    ensures forall i :: 0 <= i < |code| ==> ls[i] == SplitLine(code[i]).value
    decreases |code|
  {
    if code == [] then [] else [SplitLine(code[0]).value] + Parsed(code[1..])
  }

  /** No label occurs on two lines */
  predicate DistinctKeys(ls: seq<Line>) {
    forall i, j :: 0 <= i < j < |ls| ==> ls[i].key != ls[j].key
  }

  /** ExtractLabels on a table that already holds t: each line in turn is
      split and added; the first error ends the load */
  function LoadInto(t: Table, code: seq<string>): (r: Result<Table>)
    ensures r.Ok? ==> |r.value| == |t| + |code|
    ensures r.Fail? ==> LoadError(r.error)
    decreases |code|
  {
    if code == [] then Ok(t)
    else
      var l :- SplitLine(code[0]);
      var t' :- Insert(t, l);
      LoadInto(t', code[1..])
  }

  /** The only errors loading can raise: a bad or overflowing label, a
      missing space, a repeated label */
  predicate LoadError(e: Error) {
    e.BadNumber? || e == Overflow || e.MissingSpace? || e.DuplicateLabel?
  }

  /** LoadCode: empty the table, then load the program text */
  function LoadCode(code: seq<string>): (r: Result<Table>)
    ensures r.Ok? ==> |r.value| == |code|
    ensures r.Fail? ==> LoadError(r.error)
  {
    LoadInto([], code)
  }

  /** Past a well-formed first line, the rest decides whether every line is well formed */
  lemma AllParseShift(code: seq<string>)
    requires code != [] && SplitLine(code[0]).Ok?
    ensures AllParse(code) <==> AllParse(code[1..])
  {
    var rest := code[1..];
    if AllParse(code) {
      forall i | 0 <= i < |rest|
        ensures SplitLine(rest[i]).Ok?
      {
        assert rest[i] == code[i + 1];
      }
    }
    if AllParse(rest) {
      forall i | 0 <= i < |code|
        ensures SplitLine(code[i]).Ok?
      {
        if i > 0 {
          assert code[i] == rest[i - 1];
        }
      }
    }
  }

  /** Loading onto t succeeds exactly when every line is well formed and no
      label repeats, neither among the lines nor against t; the table then
      holds t's lines and the new ones, in label order */
  lemma {:induction false} LoadIntoSpec(t: Table, code: seq<string>)
    requires Sorted(t)
    ensures LoadInto(t, code).Ok? <==>
      && AllParse(code)
      && DistinctKeys(Parsed(code))
      && forall i :: 0 <= i < |code| ==> Parsed(code)[i].key !in KeySet(t)
    ensures LoadInto(t, code).Ok? ==>
      && Sorted(LoadInto(t, code).value)
      && multiset(LoadInto(t, code).value) == multiset(t) + multiset(Parsed(code))
    decreases |code|
  {
    if code != [] {
      var rest := code[1..];
      var sl := SplitLine(code[0]);
      if !sl.Ok? {
        assert !AllParse(code);
      } else {
        var l := sl.value;
        InsertSpec(t, l);
        var ins := Insert(t, l);
        if ins.Ok? {
          var t' := ins.value;
          LoadIntoSpec(t', rest);
          AllParseShift(code);
          if AllParse(code) {
            var p := Parsed(code);
            var p' := Parsed(rest);
            assert p == [l] + p' by {
              forall i | 0 <= i < |p| ensures p[i] == ([l] + p')[i] {
                if i > 0 { assert code[i] == rest[i - 1]; }
              }
            }
            ParsedStep(t, l, p');
          }
        } else {
          if AllParse(code) {
            assert Parsed(code)[0].key == l.key;
          }
        }
      }
    }
  }

  /** The side conditions for the lines after the first, with the first line
      moved into the table */
  lemma ParsedStep(t: Table, l: Line, p': seq<Line>)
    requires Sorted(t) && l.key !in KeySet(t)
    ensures (DistinctKeys([l] + p') && forall i :: 0 <= i < |[l] + p'| ==> ([l] + p')[i].key !in KeySet(t))
      <==> (DistinctKeys(p') && forall i :: 0 <= i < |p'| ==> p'[i].key !in KeySet(t) + {l.key})
    ensures multiset(t) + multiset([l] + p') == multiset(t) + multiset{l} + multiset(p')
  {
    var p := [l] + p';
    assert forall i :: 0 < i < |p| ==> p[i] == p'[i - 1];
    if DistinctKeys(p') && forall i :: 0 <= i < |p'| ==> p'[i].key !in KeySet(t) + {l.key} {
      forall i, j | 0 <= i < j < |p| ensures p[i].key != p[j].key {
        if i == 0 {
          assert p'[j - 1].key != l.key;
        } else {
          assert p'[i - 1].key != p'[j - 1].key;
        }
      }
    }
    if DistinctKeys(p) && forall i :: 0 <= i < |p| ==> p[i].key !in KeySet(t) {
      forall i | 0 <= i < |p'| ensures p'[i].key !in KeySet(t) + {l.key} {
        assert p[i + 1] == p'[i];
        assert p[0].key != p[i + 1].key;
      }
      forall i, j | 0 <= i < j < |p'| ensures p'[i].key != p'[j].key {
        assert p[i + 1].key != p[j + 1].key;
      }
    }
    assert multiset(p) == multiset{l} + multiset(p');
  }

  /** LoadCode succeeds exactly when every line is well formed and no label
      repeats; the table then holds exactly those lines, in label order */
  lemma LoadCodeSpec(code: seq<string>)
    ensures LoadCode(code).Ok? <==> AllParse(code) && DistinctKeys(Parsed(code))
    ensures LoadCode(code).Ok? ==>
      && Sorted(LoadCode(code).value)
      && multiset(LoadCode(code).value) == multiset(Parsed(code))
  {
    var empty: Table := [];
    LoadIntoSpec(empty, code);
    assert KeySet(empty) == {};
  }

  /** A line whose label is above every label of the table goes at its end */
  lemma {:induction false} InsertAtEnd(t: Table, l: Line)
    requires forall i :: 0 <= i < |t| ==> t[i].key < l.key
    ensures Insert(t, l) == Ok(t + [l])
    decreases |t|
  {
    if t == [] {
      assert t + [l] == [l];
    } else {
      assert t[0].key < l.key;
      forall i | 0 <= i < |t[1..]|
        ensures t[1..][i].key < l.key
      {
        assert t[1..][i] == t[i + 1];
      }
      InsertAtEnd(t[1..], l);
      assert [t[0]] + (t[1..] + [l]) == t + [l];
    }
  }

  /** Lines given in ascending label order load in that order, after the table's own */
  lemma {:induction false} LoadAscending(t: Table, code: seq<string>, ls: Table)
    requires |code| == |ls|
    requires forall i :: 0 <= i < |code| ==> SplitLine(code[i]) == Ok(ls[i])
    requires Sorted(t + ls)
    ensures LoadInto(t, code) == Ok(t + ls)
    decreases |code|
  {
    if code == [] {
      assert t + ls == t;
    } else {
      AboveAll(t, ls);
      LoadStep(t, code, ls[0]);
      SplitsShift(code, ls);
      MoveFirst(t, ls);
      LoadAscending(t + [ls[0]], code[1..], ls[1..]);
    }
  }

  lemma MoveFirst(t: Table, ls: Table)
    requires ls != []
    ensures t + [ls[0]] + ls[1..] == t + ls
  {
    assert [ls[0]] + ls[1..] == ls;
  }

  /** In a sorted t + ls, the first of ls is above every line of t */
  lemma AboveAll(t: Table, ls: Table)
    requires Sorted(t + ls) && ls != []
    ensures forall i :: 0 <= i < |t| ==> t[i].key < ls[0].key
  {
    forall i | 0 <= i < |t|
      ensures t[i].key < ls[0].key
    {
      assert (t + ls)[i] == t[i] && (t + ls)[|t|] == ls[0];
    }
  }

  /** Loading a first line that goes at the end of the table */
  lemma LoadStep(t: Table, code: seq<string>, l: Line)
    requires code != [] && SplitLine(code[0]) == Ok(l)
    requires forall i :: 0 <= i < |t| ==> t[i].key < l.key
    ensures LoadInto(t, code) == LoadInto(t + [l], code[1..])
  {
    InsertAtEnd(t, l);
  }

  lemma SplitsShift(code: seq<string>, ls: Table)
    requires |code| == |ls| && code != []
    requires forall i :: 0 <= i < |code| ==> SplitLine(code[i]) == Ok(ls[i])
    ensures forall i :: 0 <= i < |code[1..]| ==> SplitLine(code[1..][i]) == Ok(ls[1..][i])
  {
    forall i | 0 <= i < |code[1..]|
      ensures SplitLine(code[1..][i]) == Ok(ls[1..][i])
    {
      assert code[1..][i] == code[i + 1];
    }
  }

  /** The table written out as program text: each line's label, a space, its statement */
  function Listing(t: Table): (code: seq<string>)
    ensures |code| == |t|
  {
    seq(|t|, i requires 0 <= i < |t| => Decimal(t[i].key) + " " + t[i].text)
  }

  /** A sorted table written out and loaded again is the same table */
  lemma ListingLoads(t: Table)
    requires Sorted(t)
    ensures LoadCode(Listing(t)) == Ok(t)
  {
    var code := Listing(t);
    forall i | 0 <= i < |code|
      ensures SplitLine(code[i]) == Ok(t[i])
    {
      SplitPrinted(t[i].key, t[i].text);
    }
    var empty: Table := [];
    assert empty + t == t;
    LoadAscending(empty, code, t);
  }
}
