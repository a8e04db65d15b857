/** A whole program, from source text to final state: a loop that counts A
    from 1 while A < 4 and prints 1, 2 and 3

      10 LET A = 1
      20 PRINT A
      30 LET A = A + 1
      40 IF A < 4 GOTO 20
*/
module ExampleRun {
  import opened Failures
  import opened Int32
  import opened Tokenizer
  import opened Evaluator
  import opened LineTable
  import opened Statements
  import opened Machine
  import opened Examples

  /* The program */

  /** The statements of lines 10, 20, 30 and 40, as the tokenizer reads them */
  const SetA: seq<Token> := [Token(Cmd, "LET"), Token(Var, "A"), Token(Relop, "="), Token(Number, "1")]
  const PrintA: seq<Token> := [Token(Cmd, "PRINT"), Token(Var, "A")]
  const IncA: seq<Token> := [Token(Cmd, "LET"), Token(Var, "A"), Token(Relop, "="), Token(Var, "A"), Token(Binop, "+"), Token(Number, "1")]
  const TestA: seq<Token> := [Token(Cmd, "IF"), Token(Var, "A"), Token(Relop, "<"), Token(Number, "4"), Token(Cmd, "GOTO"), Token(Number, "20")]

  /** The table the program loads into; LinesText spells out its text */
  const Lines: Table := [Line(10, Spaced(SetA)), Line(20, Spaced(PrintA)), Line(30, Spaced(IncA)), Line(40, Spaced(TestA))]

  const Code: seq<string> := Listing(Lines)

  /** The table, written out; Code lists it as "10 LET A = 1" and so on */
  lemma LinesText()
    ensures Lines == [Line(10, "LET A = 1"), Line(20, "PRINT A"), Line(30, "LET A = A + 1"), Line(40, "IF A < 4 GOTO 20")]
  {
    SetAText();
    PrintAText();
    IncAText();
    TestAText();
  }

  lemma SetAText()
    ensures Spaced(SetA) == "LET A = 1"
  {
    assert Spaced(SetA[3..]) == "1";
    assert Spaced(SetA[2..]) == "=" + " " + "1";
    assert Spaced(SetA[1..]) == "A" + " " + "= 1";
    assert Spaced(SetA) == "LET" + " " + "A = 1";
  }

  lemma PrintAText()
    ensures Spaced(PrintA) == "PRINT A"
  {
    assert Spaced(PrintA[1..]) == "A";
    assert Spaced(PrintA) == "PRINT" + " " + "A";
  }

  lemma IncAText()
    ensures Spaced(IncA) == "LET A = A + 1"
  {
    assert Spaced(IncA[5..]) == "1";
    assert Spaced(IncA[4..]) == "+" + " " + "1";
    assert Spaced(IncA[3..]) == "A" + " " + "+ 1";
    assert Spaced(IncA[2..]) == "=" + " " + "A + 1";
    assert Spaced(IncA[1..]) == "A" + " " + "= A + 1";
    assert Spaced(IncA) == "LET" + " " + "A = A + 1";
  }

  lemma TestAText()
    ensures Spaced(TestA) == "IF A < 4 GOTO 20"
  {
    assert Spaced(TestA[5..]) == "20";
    assert Spaced(TestA[4..]) == "GOTO" + " " + "20";
    assert Spaced(TestA[3..]) == "4" + " " + "GOTO 20";
    assert Spaced(TestA[2..]) == "<" + " " + "4 GOTO 20";
    assert Spaced(TestA[1..]) == "A" + " " + "< 4 GOTO 20";
    assert Spaced(TestA) == "IF" + " " + "A < 4 GOTO 20";
  }

  /* Loading */

  lemma LoadsLines()
    ensures LoadCode(Code) == Ok(Lines)
  {
    LinesSorted();
    ListingLoads(Lines);
  }

  lemma LinesSorted()
    ensures Sorted(Lines)
  {
    LinesText();
  }

  /* The statements of the program */

  lemma SmallNumbers()
    ensures ParseInt32("1") == Ok(1) && ParseInt32("4") == Ok(4) && ParseInt32("20") == Ok(20)
  {
    ParseDecimal(1);
    ParseDecimal(4);
    assert NatDigits(20) == NatDigits(2) + [DigitChar(0)];
    ParseDecimal(20);
  }

  /** An operand that no operator follows is the whole expression */
  lemma Single(c: Ctx, toks: seq<Token>, v: i32, draws: nat)
    requires toks != [] && Primary(c, toks, draws) == Ok(Eval(v, toks[1..], draws))
    requires |toks| == 1 || Prec(toks[1].text) < 0
    ensures Expression(c, toks, draws) == Ok(Eval(v, toks[1..], draws))
  {
  }

  /** A + 1, below int.MaxValue */
  lemma Increment(c: Ctx, draws: nat)
    requires "A" in c.vars && c.vars["A"] < MAX
    ensures Expression(c, IncA[3..], draws) == Ok(Eval(c.vars["A"] + 1, [], draws))
  {
    var a := c.vars["A"];
    var e := IncA[3..];
    assert e == [Token(Var, "A"), Token(Binop, "+"), Token(Number, "1")];
    assert e[1..] == [Token(Binop, "+"), Token(Number, "1")] && e[1..][1..] == [Token(Number, "1")];
    assert Primary(c, e, draws) == Ok(Eval(a, e[1..], draws));
    SmallNumbers();
    assert Primary(c, e[1..][1..], draws) == Ok(Eval(1, [], draws));
    assert Absorb(c, [], 1, "+", 0, draws) == Ok(Eval(1, [], draws));
    assert Wrap(a + 1) == a + 1;
    assert Climb(c, e[1..], a, 0, draws) == Ok(Eval(a + 1, [], draws));
  }

  lemma ExecSetA(rnd: Oracle, s: State)
    ensures Execute(rnd, s, SetA) == Ok(s.(vars := s.vars["A" := 1]))
  {
    var c := Ctx(s.vars, rnd);
    var e := SetA[1..][2..];
    assert e == [Token(Number, "1")];
    SmallNumbers();
    Single(c, e, 1, s.draws);
  }

  lemma ExecPrintA(rnd: Oracle, s: State)
    requires "A" in s.vars
    ensures Execute(rnd, s, PrintA) == Ok(s.(out := s.out + [s.vars["A"]]))
  {
    var c := Ctx(s.vars, rnd);
    var e := PrintA[1..];
    assert e == [Token(Var, "A")];
    Single(c, e, s.vars["A"], s.draws);
  }

  lemma ExecIncA(rnd: Oracle, t: Table, a: i32, out: seq<i32>)
    requires a < MAX
    ensures Execute(rnd, Counted(t, a, 2, out), IncA) == Ok(Counted(t, a + 1, 2, out))
  {
    var s := Counted(t, a, 2, out);
    assert IncA[1..][2..] == IncA[3..];
    Increment(Ctx(s.vars, rnd), s.draws);
    Reassign(map["A" := a], a + 1);
  }

  /** GOTO 20 lands just before position 1, the line labelled 20 */
  lemma ExecGoto(rnd: Oracle, s: State)
    requires IndexOfKey(s.table, 20) == 1
    ensures Execute(rnd, s, TestA[4..]) == Ok(s.(pc := 0))
  {
    var e := TestA[4..][1..];
    assert e == [Token(Number, "20")];
    SmallNumbers();
    Single(Ctx(s.vars, rnd), e, 20, s.draws);
  }

  /** IF A < 4 GOTO 20 */
  lemma ExecTestA(rnd: Oracle, t: Table, a: i32, out: seq<i32>)
    requires IndexOfKey(t, 20) == 1
    ensures Execute(rnd, Counted(t, a, 3, out), TestA) == Ok(Counted(t, a, if a < 4 then 0 else 3, out))
  {
    var s := Counted(t, a, 3, out);
    var c := Ctx(s.vars, rnd);
    var args := TestA[1..];
    assert args[1].text == "<";
    Single(c, args, a, s.draws);
    var b := args[1..][1..];
    assert b[1..] == TestA[4..] && b[1].text == "GOTO";
    SmallNumbers();
    Single(c, b, 4, s.draws);
    ExecGoto(rnd, s);
  }

  /* The run */

  /** A table of four lines that read as the program's statements, with the
      label 20 at position 1 */
  predicate Shaped(t: Table) {
    && |t| == 4
    && Tokenize(t[0].text) == SetA && Tokenize(t[1].text) == PrintA
    && Tokenize(t[2].text) == IncA && Tokenize(t[3].text) == TestA
    && IndexOfKey(t, 20) == 1
  }

  lemma LinesShaped()
    ensures Shaped(Lines)
  {
    ReadsBack(SetA);
    ReadsBack(PrintA);
    ReadsBack(IncA);
    ReadsBack(TestA);
    FindsLine20();
  }

  lemma FindsLine20()
    ensures IndexOfKey(Lines, 20) == 1
  {
    LinesText();
    assert Lines[1..][0].key == 20;
  }

  /** Each statement of the program, written out, reads back as its tokens */
  lemma ReadsBack(toks: seq<Token>)
    requires toks in {SetA, PrintA, IncA, TestA}
    ensures Tokenize(Spaced(toks)) == toks
  {
    forall i | 0 <= i < |toks|
      ensures Simple(toks[i])
    {
      var tok := toks[i];
      assert tok.text in {"LET", "PRINT", "IF", "GOTO", "A", "=", "<", "+", "1", "4", "20"};
      if tok.kind == Cmd {
        assert AllUpper(tok.text);
      } else if tok.kind == Number {
        assert AllDigits(tok.text);
      }
    }
    TokenizeSpaced(toks);
  }

  /** The state on table t with A set to a, the counter at pc and the output out */
  function Counted(t: Table, a: i32, pc: int, out: seq<i32>): State {
    State(t, map["A" := a], pc, out, 0)
  }

  /** a, a + 1, ..., 3 */
  function Ramp(a: i32): seq<i32>
    requires 1 <= a <= 4
    decreases 4 - a
  {
    if a == 4 then [] else [a] + Ramp(a + 1)
  }

  /** What each line of the program does to a counting state, under the line executor turn */
  ghost predicate Steps(turn: Turner, t: Table) {
    && |t| == 4
    && turn(Start(t), t[0]) == Ok(Counted(t, 1, 1, []))
    && (forall a: i32, out: seq<i32> :: turn(Counted(t, a, 1, out), t[1]) == Ok(Counted(t, a, 2, out + [a])))
    && (forall a: i32, out: seq<i32> :: a < MAX ==> turn(Counted(t, a, 2, out), t[2]) == Ok(Counted(t, a + 1, 3, out)))
    && (forall a: i32, out: seq<i32> :: turn(Counted(t, a, 3, out), t[3]) == Ok(Counted(t, a, if a < 4 then 1 else 4, out)))
  }

  /** The interpreter's executor does, line by line, what the program says */
  lemma ExecSteps(rnd: Oracle, t: Table)
    requires Shaped(t)
    ensures Steps(Exec(rnd), t)
  {
    TurnSetA(rnd, t, t[0]);
    forall a: i32, out: seq<i32>
      ensures Exec(rnd)(Counted(t, a, 1, out), t[1]) == Ok(Counted(t, a, 2, out + [a]))
    {
      TurnPrintA(rnd, t, a, out, t[1]);
    }
    forall a: i32, out: seq<i32> | a < MAX
      ensures Exec(rnd)(Counted(t, a, 2, out), t[2]) == Ok(Counted(t, a + 1, 3, out))
    {
      TurnIncA(rnd, t, a, out, t[2]);
    }
    forall a: i32, out: seq<i32>
      ensures Exec(rnd)(Counted(t, a, 3, out), t[3]) == Ok(Counted(t, a, if a < 4 then 1 else 4, out))
    {
      TurnTestA(rnd, t, a, out, t[3]);
    }
  }

  /* Each statement as one turn of the loop: run, then move to the next line */

  /** A line whose statement runs to s' moves to the next line from there */
  lemma TurnOf(rnd: Oracle, s: State, l: Line, toks: seq<Token>, s': State)
    requires Tokenize(l.text) == toks && Execute(rnd, s, toks) == Ok(s')
    ensures Exec(rnd)(s, l) == Ok(s'.(pc := s'.pc + 1))
  {
  }

  lemma TurnSetA(rnd: Oracle, t: Table, l: Line)
    requires Tokenize(l.text) == SetA
    ensures Exec(rnd)(Start(t), l) == Ok(Counted(t, 1, 1, []))
  {
    var s := Start(t);
    ExecSetA(rnd, s);
    Started(t);
    TurnOf(rnd, s, l, SetA, s.(vars := s.vars["A" := 1]));
  }

  lemma TurnPrintA(rnd: Oracle, t: Table, a: i32, out: seq<i32>, l: Line)
    requires Tokenize(l.text) == PrintA
    ensures Exec(rnd)(Counted(t, a, 1, out), l) == Ok(Counted(t, a, 2, out + [a]))
  {
    var s := Counted(t, a, 1, out);
    ExecPrintA(rnd, s);
    Printed(t, a, out);
    TurnOf(rnd, s, l, PrintA, s.(out := s.out + [s.vars["A"]]));
  }

  lemma TurnIncA(rnd: Oracle, t: Table, a: i32, out: seq<i32>, l: Line)
    requires a < MAX && Tokenize(l.text) == IncA
    ensures Exec(rnd)(Counted(t, a, 2, out), l) == Ok(Counted(t, a + 1, 3, out))
  {
    ExecIncA(rnd, t, a, out);
    TurnOf(rnd, Counted(t, a, 2, out), l, IncA, Counted(t, a + 1, 2, out));
  }

  /** Back to position 1 while A < 4 */
  lemma TurnTestA(rnd: Oracle, t: Table, a: i32, out: seq<i32>, l: Line)
    requires IndexOfKey(t, 20) == 1 && Tokenize(l.text) == TestA
    ensures Exec(rnd)(Counted(t, a, 3, out), l) == Ok(Counted(t, a, if a < 4 then 1 else 4, out))
  {
    ExecTestA(rnd, t, a, out);
    TurnOf(rnd, Counted(t, a, 3, out), l, TestA, Counted(t, a, if a < 4 then 0 else 3, out));
  }

  /* The states the turns produce, as counting states */

  lemma Started(t: Table)
    ensures var s' := Start(t).(vars := Start(t).vars["A" := 1]);
      s'.(pc := s'.pc + 1) == Counted(t, 1, 1, [])
  {
    Reassign(map[], 1);
  }

  lemma Printed(t: Table, a: i32, out: seq<i32>)
    ensures var s := Counted(t, a, 1, out);
      "A" in s.vars && var s' := s.(out := s.out + [s.vars["A"]]);
      s'.(pc := s'.pc + 1) == Counted(t, a, 2, out + [a])
  {
  }

  /** Assigning A again keeps only the new value */
  lemma Reassign(m: map<string, i32>, b: i32)
    requires m.Keys <= {"A"}
    ensures m["A" := b] == map["A" := b]
  {
  }

  /** One line of the loop */
  lemma LoopStep(turn: Turner, s: State, s': State, fuel: nat)
    requires 0 <= s.pc < |s.table| && turn(s, s.table[s.pc]) == Ok(s')
    ensures Loop(turn, s, fuel + 1) == Loop(turn, s', fuel)
  {
  }

  /** Lines 20, 30 and 40 once */
  lemma Round(turn: Turner, t: Table, a: i32, out: seq<i32>, fuel: nat)
    requires Steps(turn, t) && 1 <= a < 4
    ensures Loop(turn, Counted(t, a, 1, out), fuel + 3) == Loop(turn, Counted(t, a + 1, if a + 1 < 4 then 1 else 4, out + [a]), fuel)
  {
    LoopStep(turn, Counted(t, a, 1, out), Counted(t, a, 2, out + [a]), fuel + 2);
    LoopStep(turn, Counted(t, a, 2, out + [a]), Counted(t, a + 1, 3, out + [a]), fuel + 1);
    LoopStep(turn, Counted(t, a + 1, 3, out + [a]), Counted(t, a + 1, if a + 1 < 4 then 1 else 4, out + [a]), fuel);
  }

  /** From line 20 with A = a, the loop prints a up to 3 and halts with A = 4 */
  lemma {:induction false} Counts(turn: Turner, t: Table, a: i32, out: seq<i32>)
    requires Steps(turn, t) && 1 <= a <= 3
    ensures Loop(turn, Counted(t, a, 1, out), 3 * (4 - a)) == Halted(Counted(t, 4, 4, out + Ramp(a)))
    decreases 4 - a
  {
    Round(turn, t, a, out, 3 * (3 - a));
    if a < 3 {
      Counts(turn, t, a + 1, out + [a]);
      assert out + [a] + Ramp(a + 1) == out + Ramp(a);
    } else {
      assert Ramp(3) == [3];
    }
  }

  /** Any executor that does what the lines say runs the program to the end in ten lines */
  lemma Counting(turn: Turner, t: Table)
    requires Steps(turn, t)
    ensures Loop(turn, Start(t), 10) == Halted(Counted(t, 4, 4, [1, 2, 3]))
  {
    LoopStep(turn, Start(t), Counted(t, 1, 1, []), 9);
    Counts(turn, t, 1, []);
    assert Ramp(1) == [1, 2, 3];
  }

  /** The program loads, prints 1, 2 and 3, and halts after ten lines with A = 4 */
  lemma CountsToThree(rnd: Oracle)
    ensures RunProgram(rnd, Code, 10) == Ok(Halted(Counted(Lines, 4, 4, [1, 2, 3])))
  {
    LoadsLines();
    LinesShaped();
    ExecSteps(rnd, Lines);
    Counting(Exec(rnd), Lines);
  }
}
