/** The expression evaluator: precedence climbing over a queue of tokens.
    The queue is a sequence whose front is index 0; every evaluation returns
    its value together with what is left of the queue. The random source is
    an oracle indexed by how many numbers have been drawn so far. */
module Evaluator {
  import opened Failures
  import opened Int32
  import opened Tokenizer

  /** System.Random as a stream: the k-th draw is rnd(k) */
  type Oracle = nat -> nat

  /** What an expression can read: the variables and the random source */
  datatype Ctx = Ctx(vars: map<string, i32>, rnd: Oracle)

  /** The value of an expression, the tokens after it, and the number of
      random draws made so far */
  datatype Eval = Eval(value: i32, rest: seq<Token>, draws: nat)

  /** The four binary operators */
  predicate IsOperator(op: string) {
    op == "+" || op == "-" || op == "*" || op == "/"
  }

  predicate IsMultiplicative(op: string) {
    op == "*" || op == "/"
  }

  predicate IsAdditive(op: string) {
    op == "+" || op == "-"
  }

  /** GetPrecedence: * and / bind at level 1, + and - at level 0, any other text is -1 */
  function Prec(op: string): (p: int)
    ensures -1 <= p <= 1
    ensures p >= 0 <==> IsOperator(op)
    ensures p == 1 <==> IsMultiplicative(op)
  {
    if op == "/" || op == "*" then 1
    else if op == "+" || op == "-" then 0
    else -1
  }

  /** One binary operation on C# ints: + - * wrap around, / truncates toward
      zero, fails on a zero divisor, and fails on int.MinValue / -1, the one
      quotient that does not fit */
  function Apply(op: string, lhs: i32, rhs: i32): (r: Result<i32>)
    ensures IsOperator(op) && op != "/" ==> r.Ok?
    ensures op == "+" ==> (r.value - (lhs + rhs)) % MODULUS == 0
    ensures op == "-" ==> (r.value - (lhs - rhs)) % MODULUS == 0
    ensures op == "*" ==> (r.value - lhs * rhs) % MODULUS == 0
    ensures op == "/" ==> (r == Fail(DivideByZero) <==> rhs == 0)
    ensures op == "/" ==> (r == Fail(Overflow) <==> lhs == MIN && rhs == -1)
    ensures op == "/" ==> (r.Ok? <==> rhs != 0 && !(lhs == MIN && rhs == -1))
    ensures op == "/" && r.Ok? ==> Abs(lhs - rhs * r.value) < Abs(rhs)
    ensures op == "/" && r.Ok? ==> (lhs - rhs * r.value == 0 || (lhs - rhs * r.value < 0 <==> lhs < 0))
    ensures !IsOperator(op) ==> r == Ok(lhs)
  {
    match op
    case "+" => Ok(Wrap(lhs + rhs))
    case "-" => Ok(Wrap(lhs - rhs))
    case "*" => Ok(Wrap(lhs * rhs))
    case "/" =>
      if rhs == 0 then Fail(DivideByZero)
      else if lhs == MIN && rhs == -1 then Fail(Overflow)
      else
        QuotientFits(lhs, rhs);
        Ok(TruncDiv(lhs, rhs))
    case _ => Ok(lhs)
  }

  /** Every truncated quotient of two ints is an int, except int.MinValue / -1 */
  lemma QuotientFits(a: i32, b: i32)
    requires b != 0 && !(a == MIN && b == -1)
    ensures MIN <= TruncDiv(a, b) <= MAX
  {
    if Abs(b) == 1 {
      assert Abs(a) / Abs(b) == Abs(a);
    } else {
      HalfAtLeast(Abs(a), Abs(b));
    }
  }

  /** Dividing by at least two at least halves */
  lemma HalfAtLeast(x: nat, y: nat)
    requires y >= 2
    ensures 2 * (x / y) <= x
  {
    var m := x / y;
    DivMod(x, y);
    assert y * m == 2 * m + (y - 2) * m;
  }

  /** Random.Next(bound): a negative bound throws, a zero bound gives 0, and
      otherwise the draw is reduced into [0, bound) */
  function Draw(rnd: Oracle, draws: nat, bound: i32): (r: Result<i32>)
    ensures r.Fail? <==> bound < 0
    ensures r.Fail? ==> r.error == NegativeRandomBound(bound)
    ensures r.Ok? ==> 0 <= r.value && (bound == 0 || r.value < bound)
    ensures bound == 0 ==> r == Ok(0)
  {
    if bound < 0 then Fail(NegativeRandomBound(bound))
    else if bound == 0 then Ok(0)
    else Ok(rnd(draws) % bound)
  }

  /** The model gives RND no more than the source promises: every value in
      [0, bound) is the draw of some random source */
  lemma DrawCovers(draws: nat, bound: i32, v: int)
    requires 0 <= v < bound
    ensures exists rnd: Oracle :: Draw(rnd, draws, bound) == Ok(v)
  {
    var rnd: Oracle := k => v;
    SmallRemainder(rnd(draws), bound);
    assert Draw(rnd, draws, bound) == Ok(v);
  }

  lemma SmallRemainder(v: nat, bound: int)
    requires v < bound
    ensures v % bound == v
  {
  }

  /** EvaluatePrimary: dequeue one token and read a value from it */
  function Primary(c: Ctx, toks: seq<Token>, draws: nat): (r: Result<Eval>)
    ensures r.Ok? ==> |r.value.rest| < |toks| && r.value.draws >= draws
    ensures toks == [] ==> r == Fail(EmptyQueue)
    decreases |toks|, 0
  {
    if toks == [] then Fail(EmptyQueue)
    else
      var tok := toks[0];
      match tok.kind
      case Func => Function(c, tok, toks[1..], draws)
      case LParen =>
        var e :- Expression(c, toks[1..], draws);
        if e.rest == [] then Fail(EmptyQueue) else Ok(Eval(e.value, e.rest[1..], e.draws))
      case Number =>
        var v :- ParseInt32(tok.text);
        Ok(Eval(v, toks[1..], draws))
      case Var =>
        if tok.text in c.vars then Ok(Eval(c.vars[tok.text], toks[1..], draws))
        else Fail(UndefinedVariable(tok.text))
      case _ => Ok(Eval(0, toks[1..], draws))
  }

  /** EvaluateFunction: RND( reads one argument and draws a number; any other
      function is 0 and its argument is not read. Either way one more token,
      normally the ")", is dequeued */
  function Function(c: Ctx, f: Token, toks: seq<Token>, draws: nat): (r: Result<Eval>)
    ensures r.Ok? ==> |r.value.rest| < |toks| + 1 && r.value.draws >= draws
    ensures f.text == "RND(" && r.Ok? ==> 0 <= r.value.value && r.value.draws > draws
    ensures f.text != "RND(" ==> (r.Ok? <==> toks != []) && (r.Ok? ==> r.value.value == 0 && r.value.draws == draws)
    decreases |toks|, 3
  {
    if f.text == "RND(" then
      var e :- Expression(c, toks, draws);
      var n :- Draw(c.rnd, e.draws, e.value);
      if e.rest == [] then Fail(EmptyQueue) else Ok(Eval(n, e.rest[1..], e.draws + 1))
    else if toks == [] then Fail(EmptyQueue)
    else Ok(Eval(0, toks[1..], draws))
  }

  /** EvaluateExpression: a primary, then the operators that follow it */
  function Expression(c: Ctx, toks: seq<Token>, draws: nat): (r: Result<Eval>)
    ensures r.Ok? ==> |r.value.rest| < |toks| && r.value.draws >= draws
    decreases |toks|, 1
  {
    var p :- Primary(c, toks, draws);
    Climb(c, p.rest, p.value, 0, p.draws)
  }

  /** EvaluateExpression1: while the front token is an operator of precedence
      at least minp, take it and its right operand, let the tighter operators
      after it (Absorb) claim that operand first, and fold it into lhs */
  function Climb(c: Ctx, toks: seq<Token>, lhs: i32, minp: int, draws: nat): (r: Result<Eval>)
    ensures r.Ok? ==> |r.value.rest| <= |toks| && r.value.draws >= draws
    ensures r.Ok? && toks != [] && Prec(toks[0].text) >= minp ==> |r.value.rest| < |toks|
    decreases |toks|, 2
  {
    if toks == [] || Prec(toks[0].text) < minp then Ok(Eval(lhs, toks, draws))
    else
      var op := toks[0].text;
      var p :- Primary(c, toks[1..], draws);
      var a :- Absorb(c, p.rest, p.value, op, minp, p.draws);
      var v :- Apply(op, lhs, a.value);
      Climb(c, a.rest, v, minp, a.draws)
  }

  /** The inner loop of EvaluateExpression1: while the front token binds
      tighter than op, continue the right operand one level up. The call
      always consumes, because that token's precedence exceeds op's, which is
      at least minp */
  function Absorb(c: Ctx, toks: seq<Token>, rhs: i32, op: string, minp: int, draws: nat): (r: Result<Eval>)
    requires Prec(op) >= minp
    ensures r.Ok? ==> |r.value.rest| <= |toks| && r.value.draws >= draws
    ensures r.Ok? && toks != [] && Prec(toks[0].text) > Prec(op) ==> |r.value.rest| < |toks|
    ensures r.Ok? ==> r.value.rest == [] || Prec(r.value.rest[0].text) <= Prec(op)
    decreases |toks|, 3
  {
    if toks == [] || Prec(toks[0].text) <= Prec(op) then Ok(Eval(rhs, toks, draws))
    else
      var e :- Climb(c, toks, rhs, minp + 1, draws);
      Absorb(c, e.rest, e.value, op, minp, e.draws)
  }

  /* The textbook grammar, over the same primaries:
       expression = term { ("+" | "-") term }
       term       = primary { ("*" | "/") primary }
     each operator folded into the value on its left as soon as its right
     operand is known */

  function TermTail(c: Ctx, toks: seq<Token>, acc: i32, draws: nat): (r: Result<Eval>)
    ensures r.Ok? ==> |r.value.rest| <= |toks|
    decreases |toks|
  {
    if toks != [] && IsMultiplicative(toks[0].text) then
      var p :- Primary(c, toks[1..], draws);
      var v :- Apply(toks[0].text, acc, p.value);
      TermTail(c, p.rest, v, p.draws)
    else Ok(Eval(acc, toks, draws))
  }

  function Term(c: Ctx, toks: seq<Token>, draws: nat): (r: Result<Eval>)
    ensures r.Ok? ==> |r.value.rest| < |toks|
  {
    var p :- Primary(c, toks, draws);
    TermTail(c, p.rest, p.value, p.draws)
  }

  function SumTail(c: Ctx, toks: seq<Token>, acc: i32, draws: nat): (r: Result<Eval>)
    decreases |toks|
  {
    if toks != [] && IsAdditive(toks[0].text) then
      var t :- Term(c, toks[1..], draws);
      var v :- Apply(toks[0].text, acc, t.value);
      SumTail(c, t.rest, v, t.draws)
    else Ok(Eval(acc, toks, draws))
  }

  /** The rest of an expression after its first primary: the term's
      remaining factors, then the remaining terms */
  function TermsThenSums(c: Ctx, toks: seq<Token>, acc: i32, draws: nat): Result<Eval> {
    var t :- TermTail(c, toks, acc, draws);
    SumTail(c, t.rest, t.value, t.draws)
  }

  function RefExpression(c: Ctx, toks: seq<Token>, draws: nat): Result<Eval> {
    var t :- Term(c, toks, draws);
    SumTail(c, t.rest, t.value, t.draws)
  }

  /** The factor loop stops at the first token that is not * or / */
  lemma {:induction false} TermTailStops(c: Ctx, toks: seq<Token>, acc: i32, draws: nat)
    ensures var r := TermTail(c, toks, acc, draws);
      r.Ok? ==> r.value.rest == [] || !IsMultiplicative(r.value.rest[0].text)
    decreases |toks|
  {
    if toks != [] && IsMultiplicative(toks[0].text) {
      var p := Primary(c, toks[1..], draws);
      if p.Ok? {
        var v := Apply(toks[0].text, acc, p.value.value);
        if v.Ok? {
          TermTailStops(c, p.value.rest, v.value, p.value.draws);
        }
      }
    }
  }

  /** At level 1 the climbing loop is the factor loop */
  lemma {:induction false} ClimbTerm(c: Ctx, toks: seq<Token>, lhs: i32, draws: nat)
    ensures Climb(c, toks, lhs, 1, draws) == TermTail(c, toks, lhs, draws)
    decreases |toks|
  {
    if toks != [] && Prec(toks[0].text) >= 1 {
      var op := toks[0].text;
      var p := Primary(c, toks[1..], draws);
      if p.Ok? {
        var pv := p.value;
        assert Absorb(c, pv.rest, pv.value, op, 1, pv.draws) == Ok(pv);
        var v := Apply(op, lhs, pv.value);
        if v.Ok? {
          ClimbTerm(c, pv.rest, v.value, pv.draws);
        }
      }
    }
  }

  /** After a + or -, the inner loop gathers exactly the factors of the right operand's term */
  lemma AbsorbTerm(c: Ctx, toks: seq<Token>, rhs: i32, op: string, draws: nat)
    requires IsAdditive(op)
    ensures Absorb(c, toks, rhs, op, 0, draws) == TermTail(c, toks, rhs, draws)
  {
    if toks != [] && Prec(toks[0].text) > Prec(op) {
      ClimbTerm(c, toks, rhs, draws);
      var e := Climb(c, toks, rhs, 1, draws);
      if e.Ok? {
        TermTailStops(c, toks, rhs, draws);
        assert Absorb(c, e.value.rest, e.value.value, op, 0, e.value.draws) == e;
      }
    }
  }

  /** At level 0 the climbing loop is the factor loop followed by the term loop */
  lemma {:induction false} ClimbSum(c: Ctx, toks: seq<Token>, lhs: i32, draws: nat)
    ensures Climb(c, toks, lhs, 0, draws) == TermsThenSums(c, toks, lhs, draws)
    decreases |toks|
  {
    if toks != [] && Prec(toks[0].text) >= 0 {
      var op := toks[0].text;
      var p := Primary(c, toks[1..], draws);
      if p.Ok? {
        var pv := p.value;
        if IsMultiplicative(op) {
          assert Absorb(c, pv.rest, pv.value, op, 0, pv.draws) == Ok(pv);
          var v := Apply(op, lhs, pv.value);
          if v.Ok? {
            ClimbSum(c, pv.rest, v.value, pv.draws);
          }
        } else {
          AbsorbTerm(c, pv.rest, pv.value, op, pv.draws);
          var a := TermTail(c, pv.rest, pv.value, pv.draws);
          if a.Ok? {
            var v := Apply(op, lhs, a.value.value);
            if v.Ok? {
              ClimbSum(c, a.value.rest, v.value, a.value.draws);
              TermTailStops(c, pv.rest, pv.value, pv.draws);
              assert TermTail(c, a.value.rest, v.value, a.value.draws) == Ok(Eval(v.value, a.value.rest, a.value.draws));
            }
          }
        }
      }
    }
  }

  /** Precedence climbing computes exactly what the textbook grammar computes:
      the same value, the same tokens left over, the same error */
  lemma ExpressionIsReference(c: Ctx, toks: seq<Token>, draws: nat)
    ensures Expression(c, toks, draws) == RefExpression(c, toks, draws)
  {
    var p := Primary(c, toks, draws);
    if p.Ok? {
      ClimbSum(c, p.value.rest, p.value.value, p.value.draws);
    }
  }

  /** The climbing loop stops only at the end of the queue or at a token
      below its level */
  lemma {:induction false} ClimbStops(c: Ctx, toks: seq<Token>, lhs: i32, minp: int, draws: nat)
    ensures var r := Climb(c, toks, lhs, minp, draws);
      r.Ok? ==> r.value.rest == [] || Prec(r.value.rest[0].text) < minp
    decreases |toks|
  {
    if toks != [] && Prec(toks[0].text) >= minp {
      var op := toks[0].text;
      var p := Primary(c, toks[1..], draws);
      if p.Ok? {
        var a := Absorb(c, p.value.rest, p.value.value, op, minp, p.value.draws);
        if a.Ok? {
          var v := Apply(op, lhs, a.value.value);
          if v.Ok? {
            ClimbStops(c, a.value.rest, v.value, minp, a.value.draws);
          }
        }
      }
    }
  }

  /** An expression ends at the first token after a primary that is not
      + - * /, and leaves that token at the front */
  lemma ExpressionStops(c: Ctx, toks: seq<Token>, draws: nat)
    ensures var r := Expression(c, toks, draws);
      r.Ok? ==> r.value.rest == [] || !IsOperator(r.value.rest[0].text)
  {
    var p := Primary(c, toks, draws);
    if p.Ok? {
      ClimbStops(c, p.value.rest, p.value.value, 0, p.value.draws);
    }
  }

  /** rest is what a queue holds after some tokens were dequeued from its front */
  predicate SuffixOf(rest: seq<Token>, toks: seq<Token>) {
    |rest| <= |toks| && rest == toks[|toks| - |rest|..]
  }

  lemma SuffixTrans(a: seq<Token>, b: seq<Token>, toks: seq<Token>)
    requires SuffixOf(a, b) && SuffixOf(b, toks)
    ensures SuffixOf(a, toks)
  {
    assert toks[|toks| - |b|..][|b| - |a|..] == toks[|toks| - |a|..];
  }

  lemma SuffixDrop(toks: seq<Token>)
    requires toks != []
    ensures SuffixOf(toks[1..], toks)
  {
  }

  /* Evaluation only ever dequeues: what is left is a suffix of the queue */

  lemma {:induction false} PrimarySuffix(c: Ctx, toks: seq<Token>, draws: nat)
    ensures var r := Primary(c, toks, draws); r.Ok? ==> SuffixOf(r.value.rest, toks)
    decreases |toks|, 0
  {
    if toks != [] {
      SuffixDrop(toks);
      var tok := toks[0];
      if tok.kind == Func {
        FunctionSuffix(c, tok, toks[1..], draws);
        var r := Function(c, tok, toks[1..], draws);
        if r.Ok? {
          SuffixTrans(r.value.rest, toks[1..], toks);
        }
      } else if tok.kind == LParen {
        ExpressionSuffix(c, toks[1..], draws);
        var e := Expression(c, toks[1..], draws);
        if e.Ok? && e.value.rest != [] {
          SuffixDrop(e.value.rest);
          SuffixTrans(e.value.rest[1..], e.value.rest, toks[1..]);
          SuffixTrans(e.value.rest[1..], toks[1..], toks);
        }
      }
    }
  }

  lemma {:induction false} FunctionSuffix(c: Ctx, f: Token, toks: seq<Token>, draws: nat)
    ensures var r := Function(c, f, toks, draws); r.Ok? ==> SuffixOf(r.value.rest, toks)
    decreases |toks|, 3
  {
    if f.text == "RND(" {
      ExpressionSuffix(c, toks, draws);
      var e := Expression(c, toks, draws);
      if e.Ok? && e.value.rest != [] {
        SuffixDrop(e.value.rest);
        SuffixTrans(e.value.rest[1..], e.value.rest, toks);
      }
    } else if toks != [] {
      SuffixDrop(toks);
    }
  }

  lemma {:induction false} ExpressionSuffix(c: Ctx, toks: seq<Token>, draws: nat)
    ensures var r := Expression(c, toks, draws); r.Ok? ==> SuffixOf(r.value.rest, toks)
    decreases |toks|, 1
  {
    PrimarySuffix(c, toks, draws);
    var p := Primary(c, toks, draws);
    if p.Ok? {
      ClimbSuffix(c, p.value.rest, p.value.value, 0, p.value.draws);
      var r := Climb(c, p.value.rest, p.value.value, 0, p.value.draws);
      if r.Ok? {
        SuffixTrans(r.value.rest, p.value.rest, toks);
      }
    }
  }

  lemma {:induction false} ClimbSuffix(c: Ctx, toks: seq<Token>, lhs: i32, minp: int, draws: nat)
    ensures var r := Climb(c, toks, lhs, minp, draws); r.Ok? ==> SuffixOf(r.value.rest, toks)
    decreases |toks|, 2
  {
    if toks != [] && Prec(toks[0].text) >= minp {
      var op := toks[0].text;
      SuffixDrop(toks);
      PrimarySuffix(c, toks[1..], draws);
      var p := Primary(c, toks[1..], draws);
      if p.Ok? {
        SuffixTrans(p.value.rest, toks[1..], toks);
        AbsorbSuffix(c, p.value.rest, p.value.value, op, minp, p.value.draws);
        var a := Absorb(c, p.value.rest, p.value.value, op, minp, p.value.draws);
        if a.Ok? {
          SuffixTrans(a.value.rest, p.value.rest, toks);
          var v := Apply(op, lhs, a.value.value);
          if v.Ok? {
            ClimbSuffix(c, a.value.rest, v.value, minp, a.value.draws);
            var r := Climb(c, a.value.rest, v.value, minp, a.value.draws);
            if r.Ok? {
              SuffixTrans(r.value.rest, a.value.rest, toks);
            }
          }
        }
      }
    }
  }

  lemma {:induction false} AbsorbSuffix(c: Ctx, toks: seq<Token>, rhs: i32, op: string, minp: int, draws: nat)
    requires Prec(op) >= minp
    ensures var r := Absorb(c, toks, rhs, op, minp, draws); r.Ok? ==> SuffixOf(r.value.rest, toks)
    decreases |toks|, 3
  {
    if toks != [] && Prec(toks[0].text) > Prec(op) {
      ClimbSuffix(c, toks, rhs, minp + 1, draws);
      var e := Climb(c, toks, rhs, minp + 1, draws);
      if e.Ok? {
        AbsorbSuffix(c, e.value.rest, e.value.value, op, minp, e.value.draws);
        var r := Absorb(c, e.value.rest, e.value.value, op, minp, e.value.draws);
        if r.Ok? {
          SuffixTrans(r.value.rest, e.value.rest, toks);
        }
      }
    }
  }

  /** RND( with an argument n > 0 draws once from the source and yields a
      value in [0, n); the token after the argument is dropped */
  lemma RandomInRange(c: Ctx, f: Token, toks: seq<Token>, draws: nat)
    requires f.text == "RND("
    requires var e := Expression(c, toks, draws); e.Ok? && e.value.value > 0 && e.value.rest != []
    ensures var e := Expression(c, toks, draws).value;
      && Function(c, f, toks, draws) == Ok(Eval(c.rnd(e.draws) % e.value, e.rest[1..], e.draws + 1))
      && 0 <= Function(c, f, toks, draws).value.value < e.value
  {
  }

  /** RND( with a negative argument fails: Random.Next rejects a negative bound */
  lemma RandomNegative(c: Ctx, f: Token, toks: seq<Token>, draws: nat)
    requires f.text == "RND("
    requires var e := Expression(c, toks, draws); e.Ok? && e.value.value < 0
    ensures Function(c, f, toks, draws) == Fail(NegativeRandomBound(Expression(c, toks, draws).value.value))
  {
  }

  /** Any other function is 0 and swallows exactly the next token, whatever
      it is: its argument is never read, so not even an undefined variable
      there is an error */
  lemma OtherFunctionSkipsArgument(c: Ctx, f: Token, toks: seq<Token>, draws: nat)
    requires f.text != "RND(" && toks != []
    ensures Function(c, f, toks, draws) == Ok(Eval(0, toks[1..], draws))
    ensures forall c': Ctx :: Function(c', f, toks, draws) == Function(c, f, toks, draws)
  {
  }

  /** A token that is neither a number, a variable, a function nor "(" is
      read as 0; this is how "-7" comes to evaluate to 0: there is no unary minus */
  lemma OtherTokenIsZero(c: Ctx, toks: seq<Token>, draws: nat)
    requires toks != [] && toks[0].kind in {RParen, Cmd, Relop, Binop}
    ensures Primary(c, toks, draws) == Ok(Eval(0, toks[1..], draws))
  {
  }

  /** A variable reads its stored value; one never assigned is an error */
  lemma VariablePrimary(c: Ctx, toks: seq<Token>, draws: nat)
    requires toks != [] && toks[0].kind == Var
    ensures Primary(c, toks, draws).Ok? <==> toks[0].text in c.vars
    ensures toks[0].text in c.vars ==> Primary(c, toks, draws).value == Eval(c.vars[toks[0].text], toks[1..], draws)
  {
  }

  /** A NUMBER token reads its decimal value; one beyond the int range is an overflow */
  lemma NumberPrimary(c: Ctx, toks: seq<Token>, draws: nat)
    requires toks != [] && toks[0].kind == Number && toks[0].text != [] && AllDigits(toks[0].text)
    ensures DigitsValue(toks[0].text) <= MAX ==> Primary(c, toks, draws) == Ok(Eval(DigitsValue(toks[0].text), toks[1..], draws))
    ensures DigitsValue(toks[0].text) > MAX ==> Primary(c, toks, draws) == Fail(Overflow)
  {
  }

  /** A parenthesised expression: the closing token is dropped unconditionally,
      whatever it is */
  lemma ParenPrimary(c: Ctx, toks: seq<Token>, draws: nat)
    requires toks != [] && toks[0].kind == LParen
    requires var e := Expression(c, toks[1..], draws); e.Ok? && e.value.rest != []
    ensures var e := Expression(c, toks[1..], draws).value;
      Primary(c, toks, draws) == Ok(Eval(e.value, e.rest[1..], e.draws))
  {
  }
}
