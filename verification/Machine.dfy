/** The control loop: while the program counter is below the line count,
    fetch the line at that position, tokenize it, execute it, and step the
    counter by one. A run that never ends is cut off by a fuel bound.

    The loop is written once over any line executor (a Turner); its laws are
    proved at that level and then instantiated with the interpreter's own
    executor, Exec, which tokenizes the line and runs ExecuteStatement. */
module Machine {
  import opened Failures
  import opened Int32
  import opened Tokenizer
  import opened Evaluator
  import opened LineTable
  import opened Statements

  /** How a run ends: the counter passed the last line, a statement failed
      (with the state before that line), or the fuel ran out */
  datatype Outcome = Halted(s: State) | Crashed(error: Error, s: State) | OutOfFuel(s: State)

  /** Runs one fetched line against a state */
  type Turner = (State, Line) -> Result<State>

  /** The loop over a given line executor, for at most fuel lines; fetching
      at a negative counter fails */
  function Loop(turn: Turner, s: State, fuel: nat): (o: Outcome)
    ensures o.Halted? <==> o.s.pc >= |o.s.table|
    ensures o.OutOfFuel? ==> 0 <= o.s.pc < |o.s.table|
    decreases fuel
  {
    if s.pc >= |s.table| then Halted(s)
    else if s.pc < 0 then Crashed(LineIndexOutOfRange(s.pc), s)
    else if fuel == 0 then OutOfFuel(s)
    else
      match turn(s, s.table[s.pc])
      case Fail(e) => Crashed(e, s)
      case Ok(s') => Loop(turn, s', fuel - 1)
  }

  /** The executor never edits the line table */
  ghost predicate KeepsTable(turn: Turner) {
    forall st: State, l: Line :: turn(st, l).Ok? ==> turn(st, l).value.table == st.table
  }

  /** The executor only ever appends to the output */
  ghost predicate Appends(turn: Turner) {
    forall st: State, l: Line :: turn(st, l).Ok? ==> Extends(turn(st, l).value.out, st.out)
  }

  /** On every line of t the executor steps the counter by exactly one */
  ghost predicate Advances(turn: Turner, t: Table) {
    forall st: State, i: int :: 0 <= i < |t| && turn(st, t[i]).Ok? ==> turn(st, t[i]).value.pc == st.pc + 1
  }

  /** The reference for programs without jumps: run the given lines one
      after the other, each once, stopping at the first failure */
  function InOrder(turn: Turner, s: State, lines: seq<Line>): Outcome
    decreases |lines|
  {
    if lines == [] then Halted(s)
    else
      match turn(s, lines[0])
      case Fail(e) => Crashed(e, s)
      case Ok(s') => InOrder(turn, s', lines[1..])
  }

  lemma {:induction false} LoopKeepsTable(turn: Turner, s: State, fuel: nat)
    requires KeepsTable(turn)
    ensures Loop(turn, s, fuel).s.table == s.table
    decreases fuel
  {
    if 0 <= s.pc < |s.table| && fuel > 0 {
      var r := turn(s, s.table[s.pc]);
      if r.Ok? {
        LoopKeepsTable(turn, r.value, fuel - 1);
      }
    }
  }

  lemma {:induction false} LoopOutputGrows(turn: Turner, s: State, fuel: nat)
    requires Appends(turn)
    ensures Extends(Loop(turn, s, fuel).s.out, s.out)
    decreases fuel
  {
    if 0 <= s.pc < |s.table| && fuel > 0 {
      var r := turn(s, s.table[s.pc]);
      if r.Ok? {
        LoopOutputGrows(turn, r.value, fuel - 1);
        ExtendsTrans(Loop(turn, r.value, fuel - 1).s.out, r.value.out, s.out);
      }
    }
  }

  lemma ExtendsTrans(a: seq<i32>, b: seq<i32>, c: seq<i32>)
    requires Extends(a, b) && Extends(b, c)
    ensures Extends(a, c)
  {
    assert a[..|b|][..|c|] == a[..|c|];
  }

  lemma {:induction false} LoopFuel(turn: Turner, s: State, fuel: nat, more: nat)
    requires !Loop(turn, s, fuel).OutOfFuel? && fuel <= more
    ensures Loop(turn, s, more) == Loop(turn, s, fuel)
    decreases fuel
  {
    if 0 <= s.pc < |s.table| && fuel > 0 {
      var r := turn(s, s.table[s.pc]);
      if r.Ok? {
        LoopFuel(turn, r.value, fuel - 1, more - 1);
      }
    }
  }

  lemma {:induction false} LoopInOrder(turn: Turner, s: State, fuel: nat)
    requires KeepsTable(turn) && Advances(turn, s.table)
    requires 0 <= s.pc <= |s.table| && fuel >= |s.table| - s.pc
    ensures Loop(turn, s, fuel) == InOrder(turn, s, s.table[s.pc..])
    decreases |s.table| - s.pc
  {
    if s.pc < |s.table| {
      var lines := s.table[s.pc..];
      assert lines[0] == s.table[s.pc];
      var r := turn(s, s.table[s.pc]);
      if r.Ok? {
        assert r.value.table == s.table && r.value.pc == s.pc + 1;
        LoopInOrder(turn, r.value, fuel - 1);
        assert lines[1..] == s.table[s.pc + 1..];
      }
    }
  }

  /** Tokenize the given line, execute it, and move the counter on by one */
  function Turn(rnd: Oracle, s: State, line: Line): (r: Result<State>)
    ensures r.Ok? ==> r.value.table == s.table
  {
    var s' :- Execute(rnd, s, Tokenize(line.text));
    Ok(s'.(pc := s'.pc + 1))
  }

  /** The interpreter's own line executor */
  function Exec(rnd: Oracle): Turner {
    (st: State, l: Line) => Turn(rnd, st, l)
  }

  /** Interpreter.Execute, for at most fuel lines: the table is never edited,
      and the run halts exactly when the counter ends up past the last line */
  function Run(rnd: Oracle, s: State, fuel: nat): (o: Outcome)
    ensures o.s.table == s.table
    ensures o.Halted? <==> o.s.pc >= |o.s.table|
  {
    ExecKeepsTable(rnd);
    LoopKeepsTable(Exec(rnd), s, fuel);
    Loop(Exec(rnd), s, fuel)
  }

  /** A new interpreter with a loaded table: no variables, nothing printed,
      the counter at the first position */
  function Start(t: Table): State {
    State(t, map[], 0, [], 0)
  }

  /** LoadCode followed by Execute: a program that fails to load does not
      run at all, and one that loads runs on its own table */
  function RunProgram(rnd: Oracle, code: seq<string>, fuel: nat): (r: Result<Outcome>)
    ensures r.Ok? <==> LoadCode(code).Ok?
    ensures r.Fail? ==> LoadError(r.error)
    ensures r.Ok? ==> r.value.s.table == LoadCode(code).value
  {
    var t :- LoadCode(code);
    Ok(Run(rnd, Start(t), fuel))
  }

  lemma ExecKeepsTable(rnd: Oracle)
    ensures KeepsTable(Exec(rnd))
  {
  }

  lemma ExecAppends(rnd: Oracle)
    ensures Appends(Exec(rnd))
  {
    forall st: State, l: Line | Exec(rnd)(st, l).Ok?
      ensures Extends(Exec(rnd)(st, l).value.out, st.out)
    {
      ExecuteOutput(rnd, st, Tokenize(l.text));
    }
  }

  /** Without a GOTO word on the line, a turn moves the counter on by exactly one */
  lemma TurnAdvances(rnd: Oracle, s: State, line: Line)
    requires NoGoto(Tokenize(line.text))
    ensures var r := Turn(rnd, s, line); r.Ok? ==> r.value.pc == s.pc + 1
  {
    ExecuteKeepsPc(rnd, s, Tokenize(line.text));
  }

  /** No line of the table has a GOTO word in it */
  predicate NoJumps(t: Table) {
    forall i :: 0 <= i < |t| ==> NoGoto(Tokenize(t[i].text))
  }

  lemma ExecAdvances(rnd: Oracle, t: Table)
    requires NoJumps(t)
    ensures Advances(Exec(rnd), t)
  {
    forall st: State, i: int | 0 <= i < |t| && Exec(rnd)(st, t[i]).Ok?
      ensures Exec(rnd)(st, t[i]).value.pc == st.pc + 1
    {
      TurnAdvances(rnd, st, t[i]);
    }
  }

  /** A run only ever appends to the output */
  lemma RunOutputGrows(rnd: Oracle, s: State, fuel: nat)
    ensures Extends(Run(rnd, s, fuel).s.out, s.out)
  {
    ExecAppends(rnd);
    LoopOutputGrows(Exec(rnd), s, fuel);
  }

  /** More fuel does not change a run that already ended */
  lemma FuelIrrelevant(rnd: Oracle, s: State, fuel: nat, more: nat)
    requires !Run(rnd, s, fuel).OutOfFuel? && fuel <= more
    ensures Run(rnd, s, more) == Run(rnd, s, fuel)
  {
    LoopFuel(Exec(rnd), s, fuel, more);
  }

  /** A GOTO to a label in the table makes that label's line the next one run */
  lemma GotoLands(rnd: Oracle, s: State)
    requires 0 <= s.pc < |s.table|
    requires var toks := Tokenize(s.table[s.pc].text);
      toks != [] && toks[0].text == "GOTO" && Expression(Ctx(s.vars, rnd), toks[1..], s.draws).Ok?
    requires Expression(Ctx(s.vars, rnd), Tokenize(s.table[s.pc].text)[1..], s.draws).value.value in KeySet(s.table)
    ensures var k := Expression(Ctx(s.vars, rnd), Tokenize(s.table[s.pc].text)[1..], s.draws).value.value;
      var r := Turn(rnd, s, s.table[s.pc]);
      && r.Ok?
      && 0 <= r.value.pc < |s.table|
      && s.table[r.value.pc].key == k
  {
    GotoSetsPc(rnd, s, Tokenize(s.table[s.pc].text));
  }

  /** A GOTO to a label not in the table leaves the counter at -1, and the
      next fetch fails: the run crashes instead of jumping anywhere */
  lemma GotoMissingCrashes(rnd: Oracle, s: State, fuel: nat)
    requires 0 <= s.pc < |s.table| && fuel >= 1
    requires var toks := Tokenize(s.table[s.pc].text);
      toks != [] && toks[0].text == "GOTO" && Expression(Ctx(s.vars, rnd), toks[1..], s.draws).Ok?
    requires Expression(Ctx(s.vars, rnd), Tokenize(s.table[s.pc].text)[1..], s.draws).value.value !in KeySet(s.table)
    ensures var r := Turn(rnd, s, s.table[s.pc]);
      && r.Ok? && r.value.pc == -1
      && Run(rnd, s, fuel) == Crashed(LineIndexOutOfRange(-1), r.value)
  {
    GotoSetsPc(rnd, s, Tokenize(s.table[s.pc].text));
    var r := Turn(rnd, s, s.table[s.pc]);
    assert Exec(rnd)(s, s.table[s.pc]) == r;
    assert Loop(Exec(rnd), r.value, fuel - 1) == Crashed(LineIndexOutOfRange(-1), r.value);
  }

  /** Without GOTO the loop runs the lines from the counter on, each exactly
      once, in ascending label order; one turn per line is enough fuel */
  lemma StraightLine(rnd: Oracle, s: State, fuel: nat)
    requires NoJumps(s.table) && 0 <= s.pc <= |s.table| && fuel >= |s.table| - s.pc
    ensures Run(rnd, s, fuel) == InOrder(Exec(rnd), s, s.table[s.pc..])
  {
    ExecKeepsTable(rnd);
    ExecAdvances(rnd, s.table);
    LoopInOrder(Exec(rnd), s, fuel);
  }

  /** A program without GOTO, loaded from text, runs its lines once each in
      ascending label order */
  lemma StraightProgram(rnd: Oracle, code: seq<string>)
    requires LoadCode(code).Ok? && NoJumps(LoadCode(code).value)
    ensures RunProgram(rnd, code, |code|) == Ok(InOrder(Exec(rnd), Start(LoadCode(code).value), LoadCode(code).value))
  {
    var t := LoadCode(code).value;
    LoadCodeSpec(code);
    assert |multiset(t)| == |multiset(Parsed(code))|;
    StraightLine(rnd, Start(t), |code|);
    assert t[0..] == t;
  }
}
