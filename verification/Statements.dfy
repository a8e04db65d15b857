/** The statement executor: one tokenized line acts on the interpreter's
    state. PRINT, IF, GOTO and LET are recognised by the text of the first
    token; any other first token makes the line do nothing. */
module Statements {
  import opened Failures
  import opened Int32
  import opened Tokenizer
  import opened Evaluator
  import opened LineTable

  /** The interpreter's state: the line table, the variables, the program
      counter (a position in the table, not a label), everything printed so
      far, and the number of random draws made so far */
  datatype State = State(table: Table, vars: map<string, i32>, pc: int, out: seq<i32>, draws: nat)

  /** IF's comparison: only <, > and = are tested; every other operator,
      <=, >= and <> included, counts as false */
  predicate Holds(relop: string, a: i32, b: i32)
    ensures Holds(relop, a, b) ==> relop in {"<", ">", "="}
  {
    match relop
    case "<" => a < b
    case ">" => a > b
    case "=" => a == b
    case _ => false
  }

  /** ExecuteStatement */
  function Execute(rnd: Oracle, s: State, toks: seq<Token>): (r: Result<State>)
    ensures r.Ok? ==> r.value.table == s.table && r.value.draws >= s.draws
    decreases |toks|
  {
    if toks == [] then Fail(EmptyQueue)
    else
      var c := Ctx(s.vars, rnd);
      var args := toks[1..];
      match toks[0].text
      case "PRINT" =>
        var e :- Expression(c, args, s.draws);
        Ok(s.(out := s.out + [e.value], draws := e.draws))
      case "IF" =>
        var a :- Expression(c, args, s.draws);
        if a.rest == [] then Fail(EmptyQueue)
        else
          var relop := a.rest[0].text;
          var b :- Expression(c, a.rest[1..], a.draws);
          var s' := s.(draws := b.draws);
          if Holds(relop, a.value, b.value) then Execute(rnd, s', b.rest) else Ok(s')
      case "GOTO" =>
        var e :- Expression(c, args, s.draws);
        Ok(s.(pc := IndexOfKey(s.table, e.value) - 1, draws := e.draws))
      case "LET" =>
        if |args| < 2 then Fail(EmptyQueue)
        else if args[1].text != "=" then Fail(LetWithoutEquals)
        else
          var e :- Expression(c, args[2..], s.draws);
          Ok(s.(vars := s.vars[args[0].text := e.value], draws := e.draws))
      case _ => Ok(s)
  }

  /** No token of the line is the word GOTO */
  predicate NoGoto(toks: seq<Token>) {
    forall i :: 0 <= i < |toks| ==> toks[i].text != "GOTO"
  }

  /** out is what was printed before, followed by what was printed since */
  predicate Extends(out: seq<i32>, before: seq<i32>) {
    |before| <= |out| && out[..|before|] == before
  }

  /** A line prints at most one value (PRINT, possibly behind IFs) and only
      ever appends to the output */
  lemma {:induction false} ExecuteOutput(rnd: Oracle, s: State, toks: seq<Token>)
    ensures var r := Execute(rnd, s, toks);
      r.Ok? ==> Extends(r.value.out, s.out) && |r.value.out| <= |s.out| + 1
    decreases |toks|
  {
    if toks != [] && toks[0].text == "IF" {
      var c := Ctx(s.vars, rnd);
      var a := Expression(c, toks[1..], s.draws);
      if a.Ok? && a.value.rest != [] {
        var b := Expression(c, a.value.rest[1..], a.value.draws);
        if b.Ok? {
          ExecuteOutput(rnd, s.(draws := b.value.draws), b.value.rest);
        }
      }
    }
  }

  /** Without a GOTO word on the line the program counter is left alone */
  lemma {:induction false} ExecuteKeepsPc(rnd: Oracle, s: State, toks: seq<Token>)
    requires NoGoto(toks)
    ensures var r := Execute(rnd, s, toks); r.Ok? ==> r.value.pc == s.pc
    decreases |toks|
  {
    if toks != [] && toks[0].text == "IF" {
      var c := Ctx(s.vars, rnd);
      var a := Expression(c, toks[1..], s.draws);
      if a.Ok? && a.value.rest != [] {
        var b := Expression(c, a.value.rest[1..], a.value.draws);
        if b.Ok? {
          ExpressionSuffix(c, toks[1..], s.draws);
          ExpressionSuffix(c, a.value.rest[1..], a.value.draws);
          SuffixDrop(a.value.rest);
          SuffixTrans(a.value.rest[1..], a.value.rest, toks[1..]);
          SuffixTrans(b.value.rest, a.value.rest[1..], toks[1..]);
          SuffixDrop(toks);
          SuffixTrans(b.value.rest, toks[1..], toks);
          NoGotoSuffix(b.value.rest, toks);
          ExecuteKeepsPc(rnd, s.(draws := b.value.draws), b.value.rest);
        }
      }
    }
  }

  lemma NoGotoSuffix(rest: seq<Token>, toks: seq<Token>)
    requires SuffixOf(rest, toks) && NoGoto(toks)
    ensures NoGoto(rest)
  {
    forall i | 0 <= i < |rest| ensures rest[i].text != "GOTO" {
      assert rest[i] == toks[|toks| - |rest| + i];
    }
  }

  /** PRINT appends exactly the value of its expression and changes nothing else */
  lemma PrintAppends(rnd: Oracle, s: State, toks: seq<Token>)
    requires toks != [] && toks[0].text == "PRINT"
    ensures var e := Expression(Ctx(s.vars, rnd), toks[1..], s.draws);
      && (Execute(rnd, s, toks).Ok? <==> e.Ok?)
      && (e.Ok? ==> Execute(rnd, s, toks) == Ok(s.(out := s.out + [e.value.value], draws := e.value.draws)))
  {
  }

  /** IF runs the rest of the line exactly when the operator is <, > or = and
      the comparison holds; otherwise nothing but the random draws changes */
  lemma IfRunsRestIff(rnd: Oracle, s: State, toks: seq<Token>)
    requires toks != [] && toks[0].text == "IF"
    requires var a := Expression(Ctx(s.vars, rnd), toks[1..], s.draws);
      a.Ok? && a.value.rest != [] && Expression(Ctx(s.vars, rnd), a.value.rest[1..], a.value.draws).Ok?
    ensures var c := Ctx(s.vars, rnd);
      var a := Expression(c, toks[1..], s.draws).value;
      var b := Expression(c, a.rest[1..], a.draws).value;
      var relop := a.rest[0].text;
      var holds := (relop == "<" && a.value < b.value) || (relop == ">" && a.value > b.value) || (relop == "=" && a.value == b.value);
      && (holds ==> Execute(rnd, s, toks) == Execute(rnd, s.(draws := b.draws), b.rest))
      && (!holds ==> Execute(rnd, s, toks) == Ok(s.(draws := b.draws)))
  {
  }

  /** The operators <=, >= and <> never hold, whatever their operands */
  lemma CompoundRelopsNeverHold(relop: string, a: i32, b: i32)
    requires relop in {"<=", ">=", "<>"}
    ensures !Holds(relop, a, b)
  {
  }

  /** GOTO puts the program counter one before the position of its target, so
      that the loop's increment lands on it; a missing target gives -2 */
  lemma GotoSetsPc(rnd: Oracle, s: State, toks: seq<Token>)
    requires toks != [] && toks[0].text == "GOTO"
    requires Expression(Ctx(s.vars, rnd), toks[1..], s.draws).Ok?
    ensures var k := Expression(Ctx(s.vars, rnd), toks[1..], s.draws).value.value;
      var r := Execute(rnd, s, toks);
      && r.Ok? && r.value.vars == s.vars && r.value.out == s.out
      && (k in KeySet(s.table) ==> 0 <= r.value.pc + 1 < |s.table| && s.table[r.value.pc + 1].key == k)
      && (k !in KeySet(s.table) ==> r.value.pc == -2)
  {
  }

  /** LET overwrites the named variable, whatever kind of token names it, and
      no other */
  lemma LetAssigns(rnd: Oracle, s: State, toks: seq<Token>)
    requires |toks| >= 3 && toks[0].text == "LET" && toks[2].text == "="
    requires Expression(Ctx(s.vars, rnd), toks[3..], s.draws).Ok?
    ensures var v := Expression(Ctx(s.vars, rnd), toks[3..], s.draws).value.value;
      var r := Execute(rnd, s, toks);
      && r.Ok? && r.value.pc == s.pc && r.value.out == s.out
      && toks[1].text in r.value.vars && r.value.vars[toks[1].text] == v
      && (forall x :: x != toks[1].text ==> (x in r.value.vars <==> x in s.vars))
      && (forall x :: x != toks[1].text && x in s.vars ==> r.value.vars[x] == s.vars[x])
  {
    assert toks[1..][2..] == toks[3..];
  }

  /** LET whose third token is not "=" fails the debug assertion */
  lemma LetNeedsEquals(rnd: Oracle, s: State, toks: seq<Token>)
    requires |toks| >= 3 && toks[0].text == "LET" && toks[2].text != "="
    ensures Execute(rnd, s, toks) == Fail(LetWithoutEquals)
  {
  }

  /** A line whose first word is none of the four statements does nothing */
  lemma OtherIsNoOp(rnd: Oracle, s: State, toks: seq<Token>)
    requires toks != [] && toks[0].text !in {"PRINT", "IF", "GOTO", "LET"}
    ensures Execute(rnd, s, toks) == Ok(s)
  {
  }
}
