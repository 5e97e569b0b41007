/**
 The integer part of the Monga language after type checking: expressions, conditions and
 commands, and what they mean.
 */
module Monga {
  import opened Base
  import opened Word32

  datatype ArithOp = Add | Sub | Mul | Div

  datatype CompareOp = Equal | Less | LessEqual | Greater | GreaterEqual

  // A variable is named by its declaration, a parameter by its position.
  datatype Exp =
    | Int(n: Int32)
    | Var(d: nat)
    | Param(p: nat)
    | Minus(e: Exp)
    | Arith(op: ArithOp, e1: Exp, e2: Exp)

  // `Value` is any other expression used as a condition.
  datatype Cond =
    | Compare(op: CompareOp, e1: Exp, e2: Exp)
    | Literal(n: Int32)
    | Or(c1: Cond, c2: Cond)
    | And(c1: Cond, c2: Cond)
    | Not(c: Cond)
    | Value(e: Exp)

  datatype Cmd =
    | While(c: Cond, body: Cmd)
    | If(c: Cond, body: Cmd)
    | IfElse(c: Cond, c1: Cmd, c2: Cmd)
    | Assign(d: nat, e: Exp)
    | Return(e: Exp)
    | Block(vars: seq<nat>, cmds: Cmds)

  datatype Cmds = End | Then(first: Cmd, rest: Cmds)

  // ----- meaning -----

  // The quotient, truncated toward zero.
  function Quotient(a: int, b: int): int
    requires b != 0
  {
    if a >= 0 then a / b else -((-a) / b)
  }

  // None is undefined: division by zero, or a quotient that does not fit.
  function Apply(op: ArithOp, a: Word, b: Word): Option<Word> {
    match op
    case Add => Some(Wrap(a + b))
    case Sub => Some(Wrap(a - b))
    case Mul => Some(Wrap(a * b))
    case Div =>
      if b == 0 || (Signed32(a) == -0x8000_0000 && Signed32(b) == -1) then None
      else Some(Wrap(Quotient(Signed32(a), Signed32(b))))
  }

  predicate Compares(op: CompareOp, a: Word, b: Word) {
    match op
    case Equal => a == b
    case Less => Signed32(a) < Signed32(b)
    case LessEqual => Signed32(a) <= Signed32(b)
    case Greater => Signed32(a) > Signed32(b)
    case GreaterEqual => Signed32(a) >= Signed32(b)
  }

  // On integers of 32 bits the comparisons are those of the integers...
  lemma ComparesIntegers(x: Int32, y: Int32)
    ensures Compares(Equal, Wrap(x), Wrap(y)) <==> x == y
    ensures Compares(Less, Wrap(x), Wrap(y)) <==> x < y
    ensures Compares(LessEqual, Wrap(x), Wrap(y)) <==> x <= y
    ensures Compares(Greater, Wrap(x), Wrap(y)) <==> x > y
    ensures Compares(GreaterEqual, Wrap(x), Wrap(y)) <==> x >= y
  {
    SignedWrap(x);
    SignedWrap(y);
  }

  // ... sums, differences and products are theirs modulo 2^32...
  lemma AppliesIntegers(x: Int32, y: Int32)
    ensures Apply(Add, Wrap(x), Wrap(y)) == Some(Wrap(x as int + y))
    ensures Apply(Sub, Wrap(x), Wrap(y)) == Some(Wrap(x as int - y))
    ensures Apply(Mul, Wrap(x), Wrap(y)) == Some(Wrap(x as int * y))
  {
    var a: int, b: int := Wrap(x), Wrap(y);
    var i, j := x as int / MODULUS, y as int / MODULUS;
    assert x == a + i * MODULUS && y == b + j * MODULUS;
    hide Wrap;
    WrapShift(a + b, i + j);
    WrapShift(a - b, i - j);
    ProductOfShifts(a, b, i, j, MODULUS);
    WrapShift(a * b, a * j + i * b + i * j * MODULUS);
  }

  lemma ProductOfShifts(a: int, b: int, i: int, j: int, m: int)
    ensures (a + i * m) * (b + j * m) == a * b + (a * j + i * b + i * j * m) * m
  {
    var u, v := i * m, j * m;
    assert (a + u) * (b + v) == a * b + a * v + u * b + u * v;
    assert a * v == a * j * m && u * b == i * b * m && u * v == i * j * m * m;
  }

  lemma WrapShift(x: int, k: int)
    ensures Wrap(x + k * MODULUS) == Wrap(x)
  {
  }

  // ... and the quotient is the one whose remainder is smaller than the divisor and, unless it
  // is zero, has the sign of the dividend. It is undefined for a divisor of zero and in the one
  // case where it does not fit.
  lemma DividesIntegers(x: Int32, y: Int32) returns (q: int)
    ensures Apply(Div, Wrap(x), Wrap(y)).None? <==> y == 0 || (x == -0x8000_0000 && y == -1)
    ensures Apply(Div, Wrap(x), Wrap(y)).Some? ==>
              && Apply(Div, Wrap(x), Wrap(y)) == Some(Wrap(q)) && -0x8000_0000 <= q < 0x8000_0000
              && var r := x - q * y;
              && -Magnitude(y) < r < Magnitude(y)
              && (r > 0 ==> x > 0) && (r < 0 ==> x < 0)
  {
    SignedWrap(x);
    SignedWrap(y);
    q := 0;
    if y != 0 {
      q := Quotient(x, y);
      QuotientRemainder(x, y);
    }
  }

  function Magnitude(x: int): int {
    if x < 0 then -x else x
  }

  lemma QuotientRemainder(x: int, y: int)
    requires y != 0
    ensures var r := x - Quotient(x, y) * y;
            -Magnitude(y) < r < Magnitude(y) && (r > 0 ==> x > 0) && (r < 0 ==> x < 0)
    ensures Magnitude(Quotient(x, y)) <= Magnitude(x)
    ensures Quotient(x, y) == Magnitude(x) ==> x == 0 || y == 1 || y == -1
  {
    var m := Magnitude(x);
    assert m == (m / y) * y + m % y;
    assert x < 0 ==> Quotient(x, y) * y == -((m / y) * y);
    QuotientSmall(m, y);
  }

  lemma QuotientSmall(m: nat, y: int)
    requires y != 0
    ensures Magnitude(m / y) <= m
    ensures Magnitude(m / y) == m ==> m == 0 || y == 1 || y == -1
  {
    var q, d := m / y, Magnitude(y);
    assert m == q * y + m % y && 0 <= m % y < d;
    var k := Magnitude(q);
    ProductGrows(k, d);
    if (q < 0) == (y < 0) {
      assert k * d == q * y;
    } else {
      assert k * d == -(q * y);
    }
  }

  lemma {:induction false} ProductGrows(k: nat, d: nat)
    requires d >= 1
    ensures k * d >= k && (k >= 1 ==> k * d >= d) && (d >= 2 ==> k * d >= 2 * k)
  {
    if k > 0 {
      ProductGrows(k - 1, d);
      assert k * d == (k - 1) * d + d;
    }
  }

  // The variables that have a value, and the arguments.
  datatype Store = Store(vars: map<nat, Word>, args: seq<Word>)

  // None is undefined: besides arithmetic, a variable read before it was assigned.
  function EvalExp(e: Exp, s: Store): Option<Word> {
    match e
    case Int(n) => Some(Wrap(n))
    case Var(d) => if d in s.vars then Some(s.vars[d]) else None
    case Param(p) => if p < |s.args| then Some(s.args[p]) else None
    case Minus(e1) =>
      var v := EvalExp(e1, s);
      if v.None? then None else Some(Wrap(0 - v.value as int))
    case Arith(op, e1, e2) =>
      var v1, v2 := EvalExp(e1, s), EvalExp(e2, s);
      if v1.None? || v2.None? then None else Apply(op, v1.value, v2.value)
  }

  function EvalCond(c: Cond, s: Store): Option<bool> {
    match c
    case Compare(op, e1, e2) =>
      var v1, v2 := EvalExp(e1, s), EvalExp(e2, s);
      if v1.None? || v2.None? then None else Some(Compares(op, v1.value, v2.value))
    case Literal(n) => Some(n != 0)
    case Value(e) =>
      var v := EvalExp(e, s);
      if v.None? then None else Some(v.value != 0)
    case Not(c1) =>
      var b := EvalCond(c1, s);
      if b.None? then None else Some(!b.value)
    case Or(c1, c2) =>
      var b := EvalCond(c1, s);
      if b.None? then None else if b.value then Some(true) else EvalCond(c2, s)
    case And(c1, c2) =>
      var b := EvalCond(c1, s);
      if b.None? then None else if b.value then EvalCond(c2, s) else Some(false)
  }

  datatype Outcome = Timeout | Undefined | Normal(s: Store) | Returned(s: Store, value: Word)

  // Variables of a block start without a value each time it is entered. `fuel` bounds the
  // depth of loop iterations; Timeout says it was not enough.
  function Eval(c: Cmd, fuel: nat, s: Store): (o: Outcome)
    ensures o.Normal? || o.Returned? ==> o.s.args == s.args
    decreases fuel, c
  {
    match c
    case While(cond, body) =>
      if fuel == 0 then Timeout
      else
        (match EvalCond(cond, s)
         case None => Undefined
         case Some(true) =>
           var o := Eval(body, fuel - 1, s);
           if o.Normal? then Eval(c, fuel - 1, o.s) else o
         case Some(false) => Normal(s))
    case If(cond, body) =>
      (match EvalCond(cond, s)
       case None => Undefined
       case Some(b) => if b then Eval(body, fuel, s) else Normal(s))
    case IfElse(cond, c1, c2) =>
      (match EvalCond(cond, s)
       case None => Undefined
       case Some(b) => if b then Eval(c1, fuel, s) else Eval(c2, fuel, s))
    case Assign(d, e) =>
      (match EvalExp(e, s)
       case None => Undefined
       case Some(v) => Normal(s.(vars := s.vars[d := v])))
    case Return(e) =>
      (match EvalExp(e, s)
       case None => Undefined
       case Some(v) => Returned(s, v))
    case Block(vars, cmds) => EvalAll(cmds, fuel, s.(vars := s.vars - Set(vars)))
  }

  function EvalAll(cs: Cmds, fuel: nat, s: Store): (o: Outcome)
    ensures o.Normal? || o.Returned? ==> o.s.args == s.args
    decreases fuel, cs
  {
    match cs
    case End => Normal(s)
    case Then(c, rest) =>
      var o := Eval(c, fuel, s);
      if o.Normal? then EvalAll(rest, fuel, o.s) else o
  }

  function Set(vars: seq<nat>): set<nat> {
    set d | d in vars
  }

  // ----- what the type checker leaves behind -----

  // Every use refers to a declaration in scope, and no declaration is nested in itself.
  predicate ExpScoped(e: Exp, scope: set<nat>, args: nat) {
    match e
    case Int(_) => true
    case Var(d) => d in scope
    case Param(p) => p < args
    case Minus(e1) => ExpScoped(e1, scope, args)
    case Arith(_, e1, e2) => ExpScoped(e1, scope, args) && ExpScoped(e2, scope, args)
  }

  predicate CondScoped(c: Cond, scope: set<nat>, args: nat) {
    match c
    case Compare(_, e1, e2) => ExpScoped(e1, scope, args) && ExpScoped(e2, scope, args)
    case Literal(_) => true
    case Value(e) => ExpScoped(e, scope, args)
    case Not(c1) => CondScoped(c1, scope, args)
    case Or(c1, c2) => CondScoped(c1, scope, args) && CondScoped(c2, scope, args)
    case And(c1, c2) => CondScoped(c1, scope, args) && CondScoped(c2, scope, args)
  }

  predicate Scoped(c: Cmd, scope: set<nat>, args: nat) {
    match c
    case While(cond, body) => CondScoped(cond, scope, args) && Scoped(body, scope, args)
    case If(cond, body) => CondScoped(cond, scope, args) && Scoped(body, scope, args)
    case IfElse(cond, c1, c2) => CondScoped(cond, scope, args) && Scoped(c1, scope, args) && Scoped(c2, scope, args)
    case Assign(d, e) => d in scope && ExpScoped(e, scope, args)
    case Return(e) => ExpScoped(e, scope, args)
    case Block(vars, cmds) =>
      && Set(vars) !! scope
      && (forall i, j :: 0 <= i < j < |vars| ==> vars[i] != vars[j])
      && AllScoped(cmds, scope + Set(vars), args)
  }

  predicate AllScoped(cs: Cmds, scope: set<nat>, args: nat) {
    match cs
    case End => true
    case Then(c, rest) => Scoped(c, scope, args) && AllScoped(rest, scope, args)
  }

  // Every kind of command and condition is in scope somewhere: { int v1; v1 = p0 - 3;
  // while (not v1 <= v0 and (0 or v1)) v1 = v1 - 1; if (1) return v1; else if (v1 < 0) v0 = -v1; }
  // with v0 declared outside and one parameter.
  lemma SampleIsScoped()
    ensures
      var first := Assign(1, Arith(Sub, Param(0), Int(3)));
      var loop := While(And(Not(Compare(LessEqual, Var(1), Var(0))), Or(Literal(0), Value(Var(1)))),
                        Assign(1, Arith(Sub, Var(1), Int(1))));
      var choice := IfElse(Literal(1), Return(Var(1)), If(Compare(Less, Var(1), Int(0)), Assign(0, Minus(Var(1)))));
      Scoped(Block([1], Then(first, Then(loop, Then(choice, End)))), {0}, 1)
  {
    var first := Assign(1, Arith(Sub, Param(0), Int(3)));
    var loop := While(And(Not(Compare(LessEqual, Var(1), Var(0))), Or(Literal(0), Value(Var(1)))),
                        Assign(1, Arith(Sub, Var(1), Int(1))));
    var choice := IfElse(Literal(1), Return(Var(1)), If(Compare(Less, Var(1), Int(0)), Assign(0, Minus(Var(1)))));
    var inner := {0} + Set([1]);
    assert 1 in [1] && 1 in inner;
    assert ExpScoped(Var(1), inner, 1) && ExpScoped(Var(0), inner, 1);
    assert ExpScoped(Int(3), inner, 1) && ExpScoped(Int(1), inner, 1) && ExpScoped(Int(0), inner, 1);
    assert ExpScoped(Minus(Var(1)), inner, 1) && Scoped(Assign(0, Minus(Var(1))), inner, 1);
    assert Scoped(If(Compare(Less, Var(1), Int(0)), Assign(0, Minus(Var(1)))), inner, 1);
    assert CondScoped(Compare(LessEqual, Var(1), Var(0)), inner, 1) && CondScoped(Value(Var(1)), inner, 1);
    assert CondScoped(Literal(0), inner, 1) && CondScoped(Or(Literal(0), Value(Var(1))), inner, 1);
    assert CondScoped(Not(Compare(LessEqual, Var(1), Var(0))), inner, 1) && CondScoped(loop.c, inner, 1);
    assert ExpScoped(Arith(Sub, Var(1), Int(1)), inner, 1) && Scoped(loop.body, inner, 1);
    assert Scoped(first, inner, 1) && Scoped(loop, inner, 1) && Scoped(choice, inner, 1);
    assert AllScoped(Then(choice, End), inner, 1);
    assert AllScoped(Then(loop, Then(choice, End)), inner, 1);
  }
}
