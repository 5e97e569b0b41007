/**
 The generated code means what the program means. An expression leaves its value in the
 result's temporary, a condition jumps to the label of its value, a command ends after its
 own code, and a function returns, faults or runs on exactly as its source does.

 Every simulation lemma has the same shape: the code of a phrase stands at the machine's pc,
 the cells hold the variables in scope, and a number of steps that the lemma hands back takes
 the machine to where the source evaluation says. Fuel bounds the source's while loops; the
 last theorem removes it.
 */
module LlvmCorrect {
  import opened Base
  import opened Word32
  import opened Iteration
  import opened Monga
  import opened LlvmCode
  import opened LlvmMachine

  // ----- the correspondence -----

  // Every variable in scope has its own cell, and every number in use is at most t.
  ghost predicate Placed(env: Numbers, scope: set<nat>, args: nat, t: nat) {
    && (forall d :: d in scope ==> d in env.vars && env.vars[d].n <= t)
    && (forall d, d' :: d in scope && d' in scope && d != d' ==> env.vars[d] != env.vars[d'])
    && (forall p: nat :: p < args ==> p in env.params && env.params[p] <= t)
  }

  // The cells hold the variables, the parameters' temporaries the arguments.
  ghost predicate Holds(env: Numbers, scope: set<nat>, s: Store, m: Machine) {
    && (forall d :: d in scope ==> (d in s.vars <==> SlotOf(env, d) in m.cells))
    && (forall d :: d in scope && d in s.vars ==> SlotOf(env, d) in m.cells && m.cells[SlotOf(env, d)] == s.vars[d])
    && (forall p: nat :: p < |s.args| ==> ParamOf(env, p) in m.temps && m.temps[ParamOf(env, p)] == s.args[p])
  }

  // The temporaries up to t are the same.
  ghost predicate Agree(a: map<nat, Word>, b: map<nat, Word>, t: nat) {
    forall i: nat :: i <= t ==> (i in a <==> i in b) && (i in a && i in b ==> a[i] == b[i])
  }

  lemma AgreeTrans(a: map<nat, Word>, b: map<nat, Word>, c: map<nat, Word>, t: nat, u: nat)
    requires Agree(a, b, t) && Agree(b, c, u) && t <= u
    ensures Agree(a, c, t)
  {
  }

  lemma HoldsAfter(env: Numbers, scope: set<nat>, s: Store, m: Machine, m': Machine, t: nat)
    requires Placed(env, scope, |s.args|, t) && Holds(env, scope, s, m)
    requires m'.cells == m.cells && Agree(m.temps, m'.temps, t)
    ensures Holds(env, scope, s, m')
  {
  }

  lemma PlacedLater(env: Numbers, scope: set<nat>, args: nat, t: nat, u: nat)
    requires Placed(env, scope, args, t) && t <= u
    ensures Placed(env, scope, args, u)
  {
  }

  // ----- expressions -----

  // The last instruction of an expression defines its result.
  lemma DefineNext(code: seq<Instr>, m: Machine, n: nat, m1: Machine, i: Instr, t: nat, v: Word)
      returns (m': Machine)
    requires Run(code, m, n) == Running(m1) && At(code, m1.pc, [i])
    requires Step(code, m1) == Define(m1, t, v)
    ensures Run(code, m, n + 1) == Running(m') && m' == Machine(m1.pc + 1, m1.temps[t := v], m1.cells)
  {
    hide Step;
    Last(code, m, n, m1);
    m' := m1.(pc := m1.pc + 1, temps := m1.temps[t := v]);
  }

  // MUL by -1 is negation modulo 2^32.
  lemma MinusOne(v: Word)
    ensures Wrap(v * Wrap(-1)) == Wrap(0 - v as int)
  {
    assert Wrap(-1) == MODULUS - 1;
    assert (v as int) * (MODULUS - 1) == v as int * MODULUS - v as int;
    MultipleOff(0 - v as int, v as int);
  }

  lemma MultipleOff(x: int, q: int)
    ensures (x + q * MODULUS) % MODULUS == x % MODULUS
  {
  }

  ghost predicate ExpDone(code: seq<Instr>, m: Machine, n: nat, m': Machine, v: Option<Word>, r: ExpCode, t: nat) {
    if v.None? then Run(code, m, n).Fault?
    else
      && Run(code, m, n) == Running(m')
      && m'.pc == m.pc + |r.code| && m'.cells == m.cells && Agree(m.temps, m'.temps, t)
      && r.result <= r.temp && r.result in m'.temps && m'.temps[r.result] == v.value
  }

  lemma {:induction false} SimExp(code: seq<Instr>, m: Machine, e: Exp, t: nat, env: Numbers, scope: set<nat>, s: Store)
      returns (n: nat, m': Machine)
    requires At(code, m.pc, GenExp(e, t, env).code)
    requires ExpScoped(e, scope, |s.args|) && Placed(env, scope, |s.args|, t) && Holds(env, scope, s, m)
    ensures ExpDone(code, m, n, m', EvalExp(e, s), GenExp(e, t, env), t)
    decreases e, 1
  {
    hide *;
    match e
    case Int(_) => n, m' := SimLeaf(code, m, e, t, env, scope, s);
    case Var(_) => n, m' := SimLeaf(code, m, e, t, env, scope, s);
    case Param(_) => n, m' := SimLeaf(code, m, e, t, env, scope, s);
    case Minus(e1) =>
      var r1 := GenExp(e1, t, env);
      MinusParts(e1, t, env, scope, |s.args|);
      AtAppend(code, m.pc, r1.code, [MulMinusOne(r1.temp + 1, r1.result)]);
      var n1, m1 := SimExp(code, m, e1, t, env, scope, s);
      n, m' := SimMinus(code, m, e1, t, env, s, n1, m1);
    case Arith(op, e1, e2) =>
      var r1 := GenExp(e1, t, env);
      var r2 := GenExp(e2, r1.temp, env);
      var last := Binary(r2.temp + 1, op, r1.result, r2.result);
      ArithParts(op, e1, e2, t, env, scope, |s.args|);
      AtAppend(code, m.pc, r1.code + r2.code, [last]);
      var n1, m1 := SimPair(code, m, op, e1, e2, t, env, scope, s);
      n, m' := SimBinary(code, m, n1, m1, op, e1, e2, t, env, s);
  }

  lemma MinusParts(e1: Exp, t: nat, env: Numbers, scope: set<nat>, args: nat)
    ensures var r1 := GenExp(e1, t, env);
            GenExp(Minus(e1), t, env).code == r1.code + [MulMinusOne(r1.temp + 1, r1.result)]
    ensures ExpScoped(Minus(e1), scope, args) ==> ExpScoped(e1, scope, args)
  {
  }

  lemma ArithParts(op: ArithOp, e1: Exp, e2: Exp, t: nat, env: Numbers, scope: set<nat>, args: nat)
    ensures var r1 := GenExp(e1, t, env);
            var r2 := GenExp(e2, r1.temp, env);
            GenExp(Arith(op, e1, e2), t, env)
              == ExpCode(r1.code + r2.code + [Binary(r2.temp + 1, op, r1.result, r2.result)], r2.temp + 1, r2.temp + 1)
    ensures ExpScoped(Arith(op, e1, e2), scope, args) ==> ExpScoped(e1, scope, args) && ExpScoped(e2, scope, args)
  {
  }

  lemma SimMinus(code: seq<Instr>, m: Machine, e1: Exp, t: nat, env: Numbers, s: Store, n1: nat, m1: Machine)
      returns (n: nat, m': Machine)
    requires ExpDone(code, m, n1, m1, EvalExp(e1, s), GenExp(e1, t, env), t)
    requires var r1 := GenExp(e1, t, env); At(code, m.pc + |r1.code|, [MulMinusOne(r1.temp + 1, r1.result)])
    ensures ExpDone(code, m, n, m', EvalExp(Minus(e1), s), GenExp(Minus(e1), t, env), t)
  {
    hide Run;
    var r1 := GenExp(e1, t, env);
    n, m' := n1, m1;
    if EvalExp(e1, s).Some? {
      var v := EvalExp(e1, s).value;
      AtHead(code, m1.pc, [MulMinusOne(r1.temp + 1, r1.result)]);
      MinusOne(v);
      m' := DefineNext(code, m, n1, m1, MulMinusOne(r1.temp + 1, r1.result), r1.temp + 1, Wrap(0 - v as int));
      n := n1 + 1;
    }
  }

  lemma SimBinary(code: seq<Instr>, m: Machine, n1: nat, m1: Machine, op: ArithOp, e1: Exp, e2: Exp, t: nat,
                  env: Numbers, s: Store)
      returns (n: nat, m': Machine)
    requires PairDone(code, m, n1, m1, e1, e2, t, env, s)
    requires
      var r1 := GenExp(e1, t, env);
      var r2 := GenExp(e2, r1.temp, env);
      At(code, m.pc + |r1.code + r2.code|, [Binary(r2.temp + 1, op, r1.result, r2.result)])
    ensures ExpDone(code, m, n, m', EvalExp(Arith(op, e1, e2), s), GenExp(Arith(op, e1, e2), t, env), t)
  {
    hide Run, Apply;
    var r1 := GenExp(e1, t, env);
    var r2 := GenExp(e2, r1.temp, env);
    var last := Binary(r2.temp + 1, op, r1.result, r2.result);
    n, m' := n1, m1;
    if EvalExp(e1, s).Some? && EvalExp(e2, s).Some? {
      AtHead(code, m1.pc, [last]);
      var v := Apply(op, EvalExp(e1, s).value, EvalExp(e2, s).value);
      n := n1 + 1;
      if v.Some? {
        m' := DefineNext(code, m, n1, m1, last, r2.temp + 1, v.value);
      } else {
        Last(code, m, n1, m1);
      }
    }
  }

  // Both operands of a pair have been evaluated, or one of them faulted.
  ghost predicate PairDone(code: seq<Instr>, m: Machine, n: nat, m': Machine, e1: Exp, e2: Exp, t: nat, env: Numbers,
                           s: Store) {
    var r1 := GenExp(e1, t, env);
    var r2 := GenExp(e2, r1.temp, env);
    var v1, v2 := EvalExp(e1, s), EvalExp(e2, s);
    if v1.None? || v2.None? then Run(code, m, n).Fault?
    else
      && Run(code, m, n) == Running(m')
      && m'.pc == m.pc + |r1.code| + |r2.code| && m'.cells == m.cells && Agree(m.temps, m'.temps, t)
      && r1.result in m'.temps && m'.temps[r1.result] == v1.value
      && r2.result in m'.temps && m'.temps[r2.result] == v2.value
      && r2.temp > r1.temp > t
  }

  // Two operands one after the other: the first result survives the second.
  lemma {:induction false} SimPair(code: seq<Instr>, m: Machine, op: ArithOp, e1: Exp, e2: Exp, t: nat, env: Numbers,
                                   scope: set<nat>, s: Store)
      returns (n: nat, m': Machine)
    requires
      var r1 := GenExp(e1, t, env);
      At(code, m.pc, r1.code + GenExp(e2, r1.temp, env).code)
    requires ExpScoped(e1, scope, |s.args|) && ExpScoped(e2, scope, |s.args|)
    requires Placed(env, scope, |s.args|, t) && Holds(env, scope, s, m)
    ensures PairDone(code, m, n, m', e1, e2, t, env, s)
    decreases Arith(op, e1, e2), 0
  {
    hide *;
    var r1 := GenExp(e1, t, env);
    var r2 := GenExp(e2, r1.temp, env);
    AtAppend(code, m.pc, r1.code, r2.code);
    var n1, m1 := SimExp(code, m, e1, t, env, scope, s);
    FirstDone(code, m, n1, m1, e1, t, env, scope, s);
    n, m' := n1, m1;
    if EvalExp(e1, s).Some? {
      var n2, m2 := SimExp(code, m1, e2, r1.temp, env, scope, s);
      n, m' := n1 + n2, m2;
      SecondDone(code, m, n1, m1, n2, m2, e1, e2, t, env, s);
    } else {
      NotEvenFirst(code, m, n1, m1, e1, e2, t, env, s);
    }
  }

  // After the first operand the second can start.
  lemma FirstDone(code: seq<Instr>, m: Machine, n: nat, m1: Machine, e1: Exp, t: nat, env: Numbers, scope: set<nat>,
                  s: Store)
    requires ExpDone(code, m, n, m1, EvalExp(e1, s), GenExp(e1, t, env), t)
    requires Placed(env, scope, |s.args|, t) && Holds(env, scope, s, m)
    ensures EvalExp(e1, s).Some? ==>
              && m1.pc == m.pc + |GenExp(e1, t, env).code|
              && Placed(env, scope, |s.args|, GenExp(e1, t, env).temp) && Holds(env, scope, s, m1)
  {
    hide Run, Holds, Placed, Agree, GenExp, EvalExp;
    if EvalExp(e1, s).Some? {
      HoldsAfter(env, scope, s, m, m1, t);
      PlacedLater(env, scope, |s.args|, t, GenExp(e1, t, env).temp);
    }
  }

  lemma SecondDone(code: seq<Instr>, m: Machine, n1: nat, m1: Machine, n2: nat, m2: Machine, e1: Exp, e2: Exp, t: nat,
                   env: Numbers, s: Store)
    requires EvalExp(e1, s).Some? && ExpDone(code, m, n1, m1, EvalExp(e1, s), GenExp(e1, t, env), t)
    requires var r1 := GenExp(e1, t, env); ExpDone(code, m1, n2, m2, EvalExp(e2, s), GenExp(e2, r1.temp, env), r1.temp)
    ensures PairDone(code, m, n1 + n2, m2, e1, e2, t, env, s)
  {
    hide Run, GenExp, EvalExp;
    Chain(code, m, n1, m1, n2);
    if EvalExp(e2, s).Some? {
      AgreeTrans(m.temps, m1.temps, m2.temps, t, GenExp(e1, t, env).temp);
    }
  }

  lemma NotEvenFirst(code: seq<Instr>, m: Machine, n: nat, m1: Machine, e1: Exp, e2: Exp, t: nat, env: Numbers,
                     s: Store)
    requires EvalExp(e1, s).None? && ExpDone(code, m, n, m1, EvalExp(e1, s), GenExp(e1, t, env), t)
    ensures PairDone(code, m, n, m1, e1, e2, t, env, s)
  {
    hide Run, GenExp, EvalExp;
  }

  lemma SimLeaf(code: seq<Instr>, m: Machine, e: Exp, t: nat, env: Numbers, scope: set<nat>, s: Store)
      returns (n: nat, m': Machine)
    requires e.Int? || e.Var? || e.Param?
    requires At(code, m.pc, GenExp(e, t, env).code)
    requires ExpScoped(e, scope, |s.args|) && Placed(env, scope, |s.args|, t) && Holds(env, scope, s, m)
    ensures ExpDone(code, m, n, m', EvalExp(e, s), GenExp(e, t, env), t)
  {
    hide Run;
    Stay(code, m);
    n, m' := 0, m;
    match e
    case Int(k) =>
      AtHead(code, m.pc, [AddZero(t + 1, k)]);
      m' := DefineNext(code, m, 0, m, AddZero(t + 1, k), t + 1, Wrap(k));
      n := 1;
    case Var(d) =>
      AtHead(code, m.pc, [Load(t + 1, SlotOf(env, d))]);
      n := 1;
      if d in s.vars {
        m' := DefineNext(code, m, 0, m, Load(t + 1, SlotOf(env, d)), t + 1, s.vars[d]);
      } else {
        Last(code, m, 0, m);
      }
    case Param(p) =>
      assert m'.temps[ParamOf(env, p)] == s.args[p];
  }

  // ----- conditions -----

  ghost predicate CondDone(code: seq<Instr>, m: Machine, n: nat, m': Machine, b: Option<bool>, yes: nat, no: nat,
                           t: nat) {
    if b.None? then Run(code, m, n).Fault?
    else
      && n > 0 && Run(code, m, n) == Running(m')
      && m'.pc == (if b.value then yes else no) && m'.cells == m.cells && Agree(m.temps, m'.temps, t)
  }

  // A condition's code ends at the label of its value, by whatever way it gets there.
  lemma {:induction false} SimCond(code: seq<Instr>, m: Machine, c: Cond, lt: nat, lf: nat, yes: nat, no: nat,
                                   k: Counters, env: Numbers, scope: set<nat>, s: Store)
      returns (n: nat, m': Machine)
    requires GenCond(c, lt, lf, k, env).Some? && At(code, m.pc, GenCond(c, lt, lf, k, env).value.code)
    requires LabelsOnce(code) && Lands(code, lt, yes) && Lands(code, lf, no)
    requires CondScoped(c, scope, |s.args|) && Placed(env, scope, |s.args|, k.temps) && Holds(env, scope, s, m)
    ensures CondDone(code, m, n, m', EvalCond(c, s), yes, no, k.temps)
    decreases c
  {
    hide *;
    match c
    case Compare(op, e1, e2) =>
      n, m' := SimCompare(code, m, c, lt, lf, yes, no, k, env, scope, s);
    case Literal(_) =>
      n, m' := SimLiteral(code, m, c, lt, lf, yes, no, k, env, s);
    case Value(e) => ValueExits(e, lt, lf, k, env);
    case Not(c1) =>
      NotParts(c1, lt, lf, k, env, scope, s);
      n, m' := SimCond(code, m, c1, lf, lt, no, yes, k, env, scope, s);
      NotDone(code, m, n, m', c1, s, yes, no, k.temps);
    case Or(c1, c2) =>
      var nl := k.labels + 1;
      OrParts(c1, c2, lt, lf, k, env, scope, s);
      var g1 := GenCond(c1, lt, nl, k.(labels := nl), env);
      var mid := Middle(code, m.pc, g1.value.code, nl, GenCond(c2, lt, lf, g1.value.k, env).value.code);
      var n1, m1 := SimCond(code, m, c1, lt, nl, yes, mid, k.(labels := nl), env, scope, s);
      if EvalCond(c1, s) == Some(false) {
        CondGoesOn(code, m, n1, m1, s, EvalCond(c1, s), yes, mid, env, scope, k.temps, g1.value.k.temps);
        var n2, m2 := SimCond(code, m1, c2, lt, lf, yes, no, g1.value.k, env, scope, s);
        n, m' := n1 + n2, m2;
        CondChain(code, m, n1, m1, n2, m2, EvalCond(c2, s), yes, no, k.temps, g1.value.k.temps);
      } else {
        n, m' := n1, m1;
        ShortCut(code, m, n, m', EvalCond(c1, s), yes, mid, yes, no, k.temps);
      }
    case And(c1, c2) =>
      var nl := k.labels + 1;
      AndParts(c1, c2, lt, lf, k, env, scope, s);
      var g1 := GenCond(c1, nl, lf, k.(labels := nl), env);
      var mid := Middle(code, m.pc, g1.value.code, nl, GenCond(c2, lt, lf, g1.value.k, env).value.code);
      var n1, m1 := SimCond(code, m, c1, nl, lf, mid, no, k.(labels := nl), env, scope, s);
      if EvalCond(c1, s) == Some(true) {
        CondGoesOn(code, m, n1, m1, s, EvalCond(c1, s), mid, no, env, scope, k.temps, g1.value.k.temps);
        var n2, m2 := SimCond(code, m1, c2, lt, lf, yes, no, g1.value.k, env, scope, s);
        n, m' := n1 + n2, m2;
        CondChain(code, m, n1, m1, n2, m2, EvalCond(c2, s), yes, no, k.temps, g1.value.k.temps);
      } else {
        n, m' := n1, m1;
        ShortCut(code, m, n, m', EvalCond(c1, s), mid, no, yes, no, k.temps);
      }
  }

  lemma ValueExits(e: Exp, lt: nat, lf: nat, k: Counters, env: Numbers)
    ensures GenCond(Value(e), lt, lf, k, env).None?
  {
  }

  lemma NotParts(c1: Cond, lt: nat, lf: nat, k: Counters, env: Numbers, scope: set<nat>, s: Store)
    ensures GenCond(Not(c1), lt, lf, k, env) == GenCond(c1, lf, lt, k, env)
    ensures CondScoped(Not(c1), scope, |s.args|) ==> CondScoped(c1, scope, |s.args|)
  {
  }

  lemma NotDone(code: seq<Instr>, m: Machine, n: nat, m': Machine, c1: Cond, s: Store, yes: nat, no: nat, t: nat)
    requires CondDone(code, m, n, m', EvalCond(c1, s), no, yes, t)
    ensures CondDone(code, m, n, m', EvalCond(Not(c1), s), yes, no, t)
  {
    hide Run, Agree;
  }

  lemma OrParts(c1: Cond, c2: Cond, lt: nat, lf: nat, k: Counters, env: Numbers, scope: set<nat>, s: Store)
    requires GenCond(Or(c1, c2), lt, lf, k, env).Some?
    ensures
      var nl := k.labels + 1;
      var g1 := GenCond(c1, lt, nl, k.(labels := nl), env);
      && g1.Some? && GenCond(c2, lt, lf, g1.value.k, env).Some?
      && GenCond(Or(c1, c2), lt, lf, k, env).value.code
          == g1.value.code + LabelCode(nl) + GenCond(c2, lt, lf, g1.value.k, env).value.code
    ensures CondScoped(Or(c1, c2), scope, |s.args|) ==>
              CondScoped(c1, scope, |s.args|) && CondScoped(c2, scope, |s.args|)
    ensures EvalCond(Or(c1, c2), s) == if EvalCond(c1, s) == Some(false) then EvalCond(c2, s) else EvalCond(c1, s)
  {
  }

  lemma AndParts(c1: Cond, c2: Cond, lt: nat, lf: nat, k: Counters, env: Numbers, scope: set<nat>, s: Store)
    requires GenCond(And(c1, c2), lt, lf, k, env).Some?
    ensures
      var nl := k.labels + 1;
      var g1 := GenCond(c1, nl, lf, k.(labels := nl), env);
      && g1.Some? && GenCond(c2, lt, lf, g1.value.k, env).Some?
      && GenCond(And(c1, c2), lt, lf, k, env).value.code
          == g1.value.code + LabelCode(nl) + GenCond(c2, lt, lf, g1.value.k, env).value.code
    ensures CondScoped(And(c1, c2), scope, |s.args|) ==>
              CondScoped(c1, scope, |s.args|) && CondScoped(c2, scope, |s.args|)
    ensures EvalCond(And(c1, c2), s) == if EvalCond(c1, s) == Some(true) then EvalCond(c2, s) else EvalCond(c1, s)
  {
  }

  // A value that decides the connective already jumps where the connective does.
  lemma ShortCut(code: seq<Instr>, m: Machine, n: nat, m': Machine, b: Option<bool>, yes: nat, no: nat, yes': nat,
                 no': nat, t: nat)
    requires CondDone(code, m, n, m', b, yes, no, t)
    requires (b == Some(true) ==> yes == yes') && (b == Some(false) ==> no == no')
    ensures CondDone(code, m, n, m', b, yes', no', t)
  {
    hide Run, Agree;
  }

  // Where a condition goes on, and that the variables are still as they were.
  lemma CondGoesOn(code: seq<Instr>, m: Machine, n: nat, m': Machine, s: Store, b: Option<bool>, yes: nat, no: nat,
                   env: Numbers, scope: set<nat>, t: nat, u: nat)
    requires b.Some? && CondDone(code, m, n, m', b, yes, no, t) && t <= u
    requires Placed(env, scope, |s.args|, t) && Holds(env, scope, s, m)
    ensures Run(code, m, n) == Running(m') && n > 0 && m'.pc == (if b.value then yes else no)
    ensures m'.cells == m.cells && Agree(m.temps, m'.temps, t)
    ensures Holds(env, scope, s, m') && Placed(env, scope, |s.args|, u)
  {
    hide Run, Agree, Holds, Placed;
    HoldsAfter(env, scope, s, m, m', t);
    PlacedLater(env, scope, |s.args|, t, u);
  }

  // Where the label between two pieces of code lands: at the second.
  lemma Middle(code: seq<Instr>, at: nat, a: seq<Instr>, l: nat, b: seq<Instr>) returns (mid: nat)
    requires LabelsOnce(code) && At(code, at, a + LabelCode(l) + b)
    ensures mid == at + |a| + 2
    ensures At(code, at, a) && Lands(code, l, mid) && At(code, mid, b)
    ensures at + |a| < |code| && code[at + |a|] == Br(l)
  {
    hide LabelsOnce, Lands, At;
    mid := at + |a| + 2;
    assert |LabelCode(l)| == 2;
    AtAppend(code, at, a + LabelCode(l), b);
    AtAppend(code, at, a, LabelCode(l));
    LabelAt(code, at + |a|, l);
  }

  lemma CondChain(code: seq<Instr>, m: Machine, n1: nat, m1: Machine, n2: nat, m2: Machine, b: Option<bool>, yes: nat,
                  no: nat, t: nat, u: nat)
    requires Run(code, m, n1) == Running(m1) && m1.cells == m.cells && Agree(m.temps, m1.temps, t) && t <= u
    requires CondDone(code, m1, n2, m2, b, yes, no, u)
    ensures CondDone(code, m, n1 + n2, m2, b, yes, no, t)
  {
    hide Run, Agree;
    Chain(code, m, n1, m1, n2);
    if b.Some? {
      AgreeTrans(m.temps, m1.temps, m2.temps, t, u);
    }
  }

  // The test and the branch that end a comparison or a literal.
  lemma SimTest(code: seq<Instr>, m: Machine, n: nat, m1: Machine, test: Instr, t: nat, holds: bool, lt: nat, lf: nat,
                yes: nat, no: nat, u: nat)
      returns (m': Machine)
    requires Run(code, m, n) == Running(m1) && At(code, m1.pc, [test, CondBr(t, lt, lf)])
    requires Step(code, m1) == Define(m1, t, if holds then 1 else 0)
    requires m1.cells == m.cells && Agree(m.temps, m1.temps, u) && u < t
    requires Lands(code, lt, yes) && Lands(code, lf, no)
    ensures CondDone(code, m, n + 2, m', Some(holds), yes, no, u)
  {
    hide Run, Find;
    assert [test, CondBr(t, lt, lf)] == [test] + [CondBr(t, lt, lf)];
    AtAppend(code, m1.pc, [test], [CondBr(t, lt, lf)]);
    var m2 := DefineNext(code, m, n, m1, test, t, if holds then 1 else 0);
    AtHead(code, m2.pc, [CondBr(t, lt, lf)]);
    Last(code, m, n + 1, m2);
    m' := m2.(pc := if holds then yes else no);
  }

  lemma SimCompare(code: seq<Instr>, m: Machine, c: Cond, lt: nat, lf: nat, yes: nat, no: nat, k: Counters,
                   env: Numbers, scope: set<nat>, s: Store)
      returns (n: nat, m': Machine)
    requires c.Compare? && At(code, m.pc, GenCond(c, lt, lf, k, env).value.code)
    requires Lands(code, lt, yes) && Lands(code, lf, no)
    requires CondScoped(c, scope, |s.args|) && Placed(env, scope, |s.args|, k.temps) && Holds(env, scope, s, m)
    ensures CondDone(code, m, n, m', EvalCond(c, s), yes, no, k.temps)
  {
    hide Run, Holds, Placed, Agree, GenExp, EvalExp, ExpScoped, Find, Compares, At;
    var r1 := GenExp(c.e1, k.temps, env);
    var r2 := GenExp(c.e2, r1.temp, env);
    var test, branch := Icmp(r2.temp + 1, c.op, r1.result, r2.result), CondBr(r2.temp + 1, lt, lf);
    AtAppend(code, m.pc, r1.code + r2.code, [test, branch]);
    n, m' := SimPair(code, m, Add, c.e1, c.e2, k.temps, env, scope, s);
    if EvalExp(c.e1, s).Some? && EvalExp(c.e2, s).Some? {
      var holds := Compares(c.op, EvalExp(c.e1, s).value, EvalExp(c.e2, s).value);
      assert [test, branch] == [test] + [branch];
      AtAppend(code, m'.pc, [test], [branch]);
      AtHead(code, m'.pc, [test]);
      m' := SimTest(code, m, n, m', test, r2.temp + 1, holds, lt, lf, yes, no, k.temps);
      n := n + 2;
    }
  }

  lemma SimLiteral(code: seq<Instr>, m: Machine, c: Cond, lt: nat, lf: nat, yes: nat, no: nat, k: Counters,
                   env: Numbers, s: Store)
      returns (n: nat, m': Machine)
    requires c.Literal? && At(code, m.pc, GenCond(c, lt, lf, k, env).value.code)
    requires Lands(code, lt, yes) && Lands(code, lf, no)
    ensures CondDone(code, m, n, m', EvalCond(c, s), yes, no, k.temps)
  {
    assert (Wrap(c.n) == 0) == (c.n == 0);
    hide Run, Find, At, Wrap;
    var t := k.temps + 1;
    var load, test, branch := AddZero(t, c.n), IcmpZero(t + 1, t), CondBr(t + 1, lf, lt);
    AtAppend(code, m.pc, [load], [test, branch]);
    AtHead(code, m.pc, [load]);
    Stay(code, m);
    var m1 := DefineNext(code, m, 0, m, load, t, Wrap(c.n));
    assert [test, branch] == [test] + [branch];
    AtAppend(code, m1.pc, [test], [branch]);
    AtHead(code, m1.pc, [test]);
    m' := SimTest(code, m, 1, m1, test, t + 1, c.n == 0, lf, lt, no, yes, k.temps);
    n := 3;
  }

  // ----- numbers given out along the way -----

  ghost predicate SameOn(env: Numbers, env': Numbers, scope: set<nat>) {
    && env'.params == env.params
    && forall d :: d in scope ==> (d in env.vars <==> d in env'.vars) && SlotOf(env', d) == SlotOf(env, d)
  }

  lemma {:induction false} VarsKeepNumbers(vars: seq<nat>, t: nat, env: Numbers, scope: set<nat>)
    requires Set(vars) !! scope
    ensures SameOn(env, GenVars(vars, t, env).env, scope)
    decreases vars
  {
    if vars != [] {
      assert vars[0] in Set(vars) && Set(vars[1..]) <= Set(vars);
      VarsKeepNumbers(vars[1..], t + 1, env.(vars := env.vars[vars[0] := Local(t + 1)]), scope);
    }
  }

  // Generating a command gives no new number to a variable declared outside it.
  lemma {:induction false} CmdKeepsNumbers(c: Cmd, k: Counters, env: Numbers, scope: set<nat>, args: nat)
    requires GenCmd(c, k, env).Some? && Scoped(c, scope, args)
    ensures SameOn(env, GenCmd(c, k, env).value.env, scope)
    decreases c
  {
    hide GenCond, GenExp, GenVars, CondScoped, ExpScoped;
    match c
    case While(cond, body) =>
      CmdKeepsNumbers(body, GenCond(cond, k.labels + 1, k.labels + 2, k.(labels := k.labels + 2), env).value.k, env,
                      scope, args);
    case If(cond, body) =>
      CmdKeepsNumbers(body, GenCond(cond, k.labels + 2, k.labels + 1, k.(labels := k.labels + 2), env).value.k, env,
                      scope, args);
    case IfElse(cond, c1, c2) =>
      var g := GenCond(cond, k.labels + 1, k.labels + 2, k.(labels := k.labels + 3), env).value;
      CmdKeepsNumbers(c1, g.k, env, scope, args);
      var b1 := GenCmd(c1, g.k, env).value;
      CmdKeepsNumbers(c2, b1.k, b1.env, scope, args);
    case Block(vars, cmds) =>
      VarsKeepNumbers(vars, k.temps, env, scope);
      CmdsKeepNumbers(cmds, k.(temps := k.temps + |vars|), GenVars(vars, k.temps, env).env, scope + Set(vars), args);
    case _ =>
  }

  lemma {:induction false} CmdsKeepNumbers(cs: Cmds, k: Counters, env: Numbers, scope: set<nat>, args: nat)
    requires GenCmds(cs, k, env).Some? && AllScoped(cs, scope, args)
    ensures SameOn(env, GenCmds(cs, k, env).value.env, scope)
    decreases cs
  {
    if cs.Then? {
      CmdKeepsNumbers(cs.first, k, env, scope, args);
      var g := GenCmd(cs.first, k, env).value;
      CmdsKeepNumbers(cs.rest, g.k, g.env, scope, args);
    }
  }

  lemma PlacedSame(env: Numbers, env': Numbers, scope: set<nat>, args: nat, t: nat)
    requires Placed(env, scope, args, t) && SameOn(env, env', scope)
    ensures Placed(env', scope, args, t)
  {
    forall d, d' | d in scope && d' in scope && d != d'
      ensures env'.vars[d] != env'.vars[d']
    {
      assert SlotOf(env', d) == SlotOf(env, d) && SlotOf(env', d') == SlotOf(env, d');
    }
  }

  lemma HoldsSame(env: Numbers, env': Numbers, scope: set<nat>, scope': set<nat>, s: Store, m: Machine)
    requires scope' <= scope
    requires Holds(env, scope, s, m) && (SameOn(env, env', scope') || SameOn(env', env, scope'))
    ensures Holds(env', scope', s, m)
  {
    assert forall p: nat :: ParamOf(env', p) == ParamOf(env, p);
  }

  // ----- blocks -----

  // The alloca of the first variable, with those of the others standing after it.
  lemma DeclareFirst(code: seq<Instr>, m: Machine, vars: seq<nat>, t: nat, env: Numbers) returns (m1: Machine)
    requires vars != [] && At(code, m.pc, GenVars(vars, t, env).code)
    ensures m1 == m.(pc := m.pc + 1, cells := m.cells - {Local(t + 1)}) && Run(code, m, 1) == Running(m1)
    ensures
      var rest := GenVars(vars[1..], t + 1, env.(vars := env.vars[vars[0] := Local(t + 1)]));
      && GenVars(vars, t, env).env == rest.env && |GenVars(vars, t, env).code| == 1 + |rest.code|
      && At(code, m1.pc, rest.code)
  {
    var rest := GenVars(vars[1..], t + 1, env.(vars := env.vars[vars[0] := Local(t + 1)]));
    AtAppend(code, m.pc, [Alloca(t + 1)], rest.code);
    AtHead(code, m.pc, [Alloca(t + 1)]);
    m1 := m.(pc := m.pc + 1, cells := m.cells - {Local(t + 1)});
    OneStep(code, m);
  }

  // The allocas of a block give its variables fresh cells without values.
  lemma {:induction false} SimVars(code: seq<Instr>, m: Machine, vars: seq<nat>, t: nat, env: Numbers,
                                   scope: set<nat>, s: Store)
      returns (m': Machine)
    requires At(code, m.pc, GenVars(vars, t, env).code)
    requires Set(vars) !! scope && forall i, j :: 0 <= i < j < |vars| ==> vars[i] != vars[j]
    requires Placed(env, scope, |s.args|, t) && Holds(env, scope, s, m)
    ensures Run(code, m, |vars|) == Running(m') && m'.pc == m.pc + |GenVars(vars, t, env).code| && m'.temps == m.temps
    ensures
      var env' := GenVars(vars, t, env).env;
      && Placed(env', scope + Set(vars), |s.args|, t + |vars|)
      && Holds(env', scope + Set(vars), s.(vars := s.vars - Set(vars)), m')
    decreases vars
  {
    if vars == [] {
      Stay(code, m);
      m' := m;
      assert scope + Set(vars) == scope && s.vars - Set(vars) == s.vars;
    } else {
      hide Run, Placed, Holds, At, GenVars;
      var d := vars[0];
      var env1 := env.(vars := env.vars[d := Local(t + 1)]);
      var m1 := DeclareFirst(code, m, vars, t, env);
      var s1 := s.(vars := s.vars - {d});
      assert d in Set(vars) && Set(vars) == {d} + Set(vars[1..]);
      DeclareOne(m, m1, d, t, env, env1, scope, s, s1);
      m' := SimVars(code, m1, vars[1..], t + 1, env1, scope + {d}, s1);
      Chain(code, m, 1, m1, |vars[1..]|);
      assert scope + {d} + Set(vars[1..]) == scope + Set(vars);
      assert s.vars - {d} - Set(vars[1..]) == s.vars - Set(vars);
    }
  }

  lemma DeclareOne(m: Machine, m1: Machine, d: nat, t: nat, env: Numbers, env1: Numbers, scope: set<nat>, s: Store,
                   s1: Store)
    requires d !in scope && Placed(env, scope, |s.args|, t) && Holds(env, scope, s, m)
    requires env1 == env.(vars := env.vars[d := Local(t + 1)]) && s1 == s.(vars := s.vars - {d})
    requires m1 == m.(pc := m.pc + 1, cells := m.cells - {Local(t + 1)})
    ensures Placed(env1, scope + {d}, |s.args|, t + 1) && Holds(env1, scope + {d}, s1, m1)
  {
    assert forall p: nat :: ParamOf(env1, p) == ParamOf(env, p);
  }

  // ----- commands -----

  ghost predicate CmdDone(code: seq<Instr>, m: Machine, n: nat, m': Machine, o: Outcome, fuel: nat, env: Numbers,
                          scope: set<nat>, t: nat, end: nat) {
    match o
    case Timeout => n >= fuel && Run(code, m, n).Running?
    case Undefined => Run(code, m, n).Fault?
    case Normal(s') =>
      && Run(code, m, n) == Running(m') && m'.pc == end
      && Holds(env, scope, s', m') && Agree(m.temps, m'.temps, t)
    case Returned(s', v) => Run(code, m, n) == Stopped(m', v) && Holds(env, scope, s', m')
  }

  // What was run before a command.
  lemma CmdChain(code: seq<Instr>, m: Machine, n1: nat, m1: Machine, n2: nat, m2: Machine, o: Outcome, fuel: nat,
                 fuel': nat, env: Numbers, scope: set<nat>, t: nat, end: nat, env': Numbers, scope': set<nat>,
                 u: nat)
    requires Run(code, m, n1) == Running(m1) && Agree(m.temps, m1.temps, t) && t <= u
    requires CmdDone(code, m1, n2, m2, o, fuel', env', scope', u, end)
    requires scope <= scope' && SameOn(env, env', scope) && n1 + fuel' >= fuel
    ensures CmdDone(code, m, n1 + n2, m2, o, fuel, env, scope, t, end)
  {
    hide Run, Agree, Holds, SameOn;
    Chain(code, m, n1, m1, n2);
    match o
    case Normal(s') =>
      AgreeTrans(m.temps, m1.temps, m2.temps, t, u);
      HoldsSame(env', env, scope', scope, s', m2);
    case Returned(s', _) => HoldsSame(env', env, scope', scope, s', m2);
    case _ =>
  }

  // A branch after a command.
  lemma CmdBranch(code: seq<Instr>, m: Machine, n: nat, m1: Machine, o: Outcome, fuel: nat, env: Numbers,
                  scope: set<nat>, t: nat, at: nat, l: nat, end: nat) returns (n': nat, m': Machine)
    requires CmdDone(code, m, n, m1, o, fuel, env, scope, t, at)
    requires at < |code| && code[at] == Br(l) && Lands(code, l, end)
    ensures CmdDone(code, m, n', m', o, fuel, env, scope, t, end)
  {
    hide Run, Agree, Find;
    n', m' := n, m1;
    if o.Normal? {
      Last(code, m, n, m1);
      n', m' := n + 1, m1.(pc := end);
    }
  }

  lemma CondThen(code: seq<Instr>, m: Machine, n: nat, m': Machine, s: Store, fuel: nat, b: Option<bool>, yes: nat,
                 no: nat, env: Numbers, scope: set<nat>, t: nat, u: nat)
    requires CondDone(code, m, n, m', b, yes, no, u) && t <= u
    requires Placed(env, scope, |s.args|, t) && Holds(env, scope, s, m)
    ensures b.None? ==> CmdDone(code, m, n, m', Undefined, fuel, env, scope, t, no)
    ensures b.Some? ==> Run(code, m, n) == Running(m') && n > 0 && m'.pc == (if b.value then yes else no)
    ensures b.Some? ==> Holds(env, scope, s, m') && Agree(m.temps, m'.temps, t)
    ensures b == Some(false) ==> CmdDone(code, m, n, m', Normal(s), fuel, env, scope, t, no)
  {
    hide Run;
  }

  // A command runs as its meaning says: through to its end with the variables updated, out
  // of the function, into a fault, or on for at least `fuel` steps.
  lemma {:induction false} SimCmd(code: seq<Instr>, m: Machine, c: Cmd, k: Counters, env: Numbers, scope: set<nat>,
                                  fuel: nat, s: Store)
      returns (n: nat, m': Machine)
    requires GenCmd(c, k, env).Some? && At(code, m.pc, GenCmd(c, k, env).value.code) && LabelsOnce(code)
    requires Scoped(c, scope, |s.args|) && Placed(env, scope, |s.args|, k.temps) && Holds(env, scope, s, m)
    ensures CmdDone(code, m, n, m', Eval(c, fuel, s), fuel, env, scope, k.temps, m.pc + |GenCmd(c, k, env).value.code|)
    decreases fuel, c, 2
  {
    hide *;
    match c
    case While(_, _) => n, m' := SimWhile(code, m, c, k, env, scope, fuel, s);
    case If(_, _) => n, m' := SimIf(code, m, c, k, env, scope, fuel, s);
    case IfElse(_, _, _) => n, m' := SimIfElse(code, m, c, k, env, scope, fuel, s);
    case Assign(_, _) => n, m' := SimAssign(code, m, c, k, env, scope, fuel, s);
    case Return(_) => n, m' := SimReturn(code, m, c, k, env, scope, fuel, s);
    case Block(vars, cmds) =>
      var v := GenVars(vars, k.temps, env);
      var k1 := k.(temps := k.temps + |vars|);
      BlockParts(vars, cmds, k, env, scope, fuel, s);
      AtAppend(code, m.pc, v.code, GenCmds(cmds, k1, v.env).value.code);
      var m1 := SimVars(code, m, vars, k.temps, env, scope, s);
      var s1 := s.(vars := s.vars - Set(vars));
      var n2, m2 := SimCmds(code, m1, cmds, k1, v.env, scope + Set(vars), fuel, s1);
      VarsKeepNumbers(vars, k.temps, env, scope);
      AgreeSelf(m.temps, k.temps);
      n, m' := |vars| + n2, m2;
      CmdChain(code, m, |vars|, m1, n2, m2, EvalAll(cmds, fuel, s1), fuel, fuel, env, scope, k.temps,
               m.pc + |GenCmd(c, k, env).value.code|, v.env, scope + Set(vars), k1.temps);
  }

  lemma BlockParts(vars: seq<nat>, cmds: Cmds, k: Counters, env: Numbers, scope: set<nat>, fuel: nat, s: Store)
    requires GenCmd(Block(vars, cmds), k, env).Some? && Scoped(Block(vars, cmds), scope, |s.args|)
    ensures
      var v := GenVars(vars, k.temps, env);
      var b := GenCmds(cmds, k.(temps := k.temps + |vars|), v.env);
      b.Some? && GenCmd(Block(vars, cmds), k, env).value.code == v.code + b.value.code
    ensures Set(vars) !! scope && forall i, j :: 0 <= i < j < |vars| ==> vars[i] != vars[j]
    ensures AllScoped(cmds, scope + Set(vars), |s.args|)
    ensures Eval(Block(vars, cmds), fuel, s) == EvalAll(cmds, fuel, s.(vars := s.vars - Set(vars)))
  {
    hide GenVars, GenCmds, EvalAll, AllScoped;
  }

  lemma AgreeSelf(a: map<nat, Word>, t: nat)
    ensures Agree(a, a, t)
  {
  }

  lemma {:induction false} SimCmds(code: seq<Instr>, m: Machine, cs: Cmds, k: Counters, env: Numbers, scope: set<nat>,
                                   fuel: nat, s: Store)
      returns (n: nat, m': Machine)
    requires GenCmds(cs, k, env).Some? && At(code, m.pc, GenCmds(cs, k, env).value.code) && LabelsOnce(code)
    requires AllScoped(cs, scope, |s.args|) && Placed(env, scope, |s.args|, k.temps) && Holds(env, scope, s, m)
    ensures CmdDone(code, m, n, m', EvalAll(cs, fuel, s), fuel, env, scope, k.temps,
                    m.pc + |GenCmds(cs, k, env).value.code|)
    decreases fuel, cs, 2
  {
    hide *;
    match cs
    case End =>
      n, m' := 0, m;
      NothingDone(code, m, k, env, scope, fuel, s);
    case Then(c, rest) =>
      var g1 := GenCmd(c, k, env);
      ThenParts(c, rest, k, env, scope, fuel, s);
      AtAppend(code, m.pc, g1.value.code, GenCmds(rest, g1.value.k, g1.value.env).value.code);
      var n1, m1 := SimCmd(code, m, c, k, env, scope, fuel, s);
      var o := Eval(c, fuel, s);
      var middle, end := m.pc + |g1.value.code|, m.pc + |GenCmds(cs, k, env).value.code|;
      if o.Normal? {
        CmdKeepsNumbers(c, k, env, scope, |s.args|);
        CmdGoesOn(code, m, n1, m1, o, fuel, env, scope, k.temps, middle);
        HoldsSame(env, g1.value.env, scope, scope, o.s, m1);
        PlacedSame(env, g1.value.env, scope, |s.args|, k.temps);
        PlacedLater(g1.value.env, scope, |s.args|, k.temps, g1.value.k.temps);
        var n2, m2 := SimCmds(code, m1, rest, g1.value.k, g1.value.env, scope, fuel, o.s);
        n, m' := n1 + n2, m2;
        CmdChain(code, m, n1, m1, n2, m2, EvalAll(rest, fuel, o.s), fuel, fuel, env, scope, k.temps, end,
                 g1.value.env, scope, g1.value.k.temps);
      } else {
        n, m' := n1, m1;
        CmdEnds(code, m, n, m', o, fuel, env, scope, k.temps, middle, end);
      }
  }

  lemma NothingDone(code: seq<Instr>, m: Machine, k: Counters, env: Numbers, scope: set<nat>, fuel: nat, s: Store)
    requires Holds(env, scope, s, m)
    ensures CmdDone(code, m, 0, m, EvalAll(End, fuel, s), fuel, env, scope, k.temps,
                    m.pc + |GenCmds(End, k, env).value.code|)
  {
    hide Holds;
    Stay(code, m);
  }

  lemma ThenParts(c: Cmd, rest: Cmds, k: Counters, env: Numbers, scope: set<nat>, fuel: nat, s: Store)
    requires GenCmds(Then(c, rest), k, env).Some? && AllScoped(Then(c, rest), scope, |s.args|)
    ensures
      var g1 := GenCmd(c, k, env);
      && g1.Some? && GenCmds(rest, g1.value.k, g1.value.env).Some?
      && GenCmds(Then(c, rest), k, env).value.code == g1.value.code + GenCmds(rest, g1.value.k, g1.value.env).value.code
    ensures Scoped(c, scope, |s.args|) && AllScoped(rest, scope, |s.args|)
    ensures
      var o := Eval(c, fuel, s);
      EvalAll(Then(c, rest), fuel, s) == if o.Normal? then EvalAll(rest, fuel, o.s) else o
  {
    hide GenCmd, Scoped, Eval;
  }

  // Where a command that ends normally leaves the machine.
  lemma CmdGoesOn(code: seq<Instr>, m: Machine, n: nat, m': Machine, o: Outcome, fuel: nat, env: Numbers,
                  scope: set<nat>, t: nat, end: nat)
    requires o.Normal? && CmdDone(code, m, n, m', o, fuel, env, scope, t, end)
    ensures Run(code, m, n) == Running(m') && m'.pc == end && Holds(env, scope, o.s, m') && Agree(m.temps, m'.temps, t)
  {
    hide Run, Holds, Agree;
  }

  // A command that does not end normally says nothing about where it ends.
  lemma CmdEnds(code: seq<Instr>, m: Machine, n: nat, m': Machine, o: Outcome, fuel: nat, env: Numbers,
                scope: set<nat>, t: nat, end: nat, end': nat)
    requires !o.Normal? && CmdDone(code, m, n, m', o, fuel, env, scope, t, end)
    ensures CmdDone(code, m, n, m', o, fuel, env, scope, t, end')
  {
    hide Run, Holds;
  }

  lemma SimAssign(code: seq<Instr>, m: Machine, c: Cmd, k: Counters, env: Numbers, scope: set<nat>, fuel: nat, s: Store)
      returns (n: nat, m': Machine)
    requires c.Assign? && At(code, m.pc, GenCmd(c, k, env).value.code)
    requires Scoped(c, scope, |s.args|) && Placed(env, scope, |s.args|, k.temps) && Holds(env, scope, s, m)
    ensures CmdDone(code, m, n, m', Eval(c, fuel, s), fuel, env, scope, k.temps, m.pc + |GenCmd(c, k, env).value.code|)
  {
    hide Run, GenExp, EvalExp, ExpScoped, Holds, Placed, Agree;
    var r := GenExp(c.e, k.temps, env);
    var last := StoreTo(SlotOf(env, c.d), r.result);
    AtAppend(code, m.pc, r.code, [last]);
    n, m' := SimExp(code, m, c.e, k.temps, env, scope, s);
    if EvalExp(c.e, s).Some? {
      var v, m1 := EvalExp(c.e, s).value, m';
      AtHead(code, m1.pc, [last]);
      Last(code, m, n, m1);
      HoldsAfter(env, scope, s, m, m1, k.temps);
      n, m' := n + 1, m1.(pc := m1.pc + 1, cells := m1.cells[SlotOf(env, c.d) := v]);
      StoreHolds(m1, m', c.d, v, env, scope, s, k.temps);
    }
  }

  lemma StoreHolds(m: Machine, m': Machine, d: nat, v: Word, env: Numbers, scope: set<nat>, s: Store, t: nat)
    requires d in scope && Placed(env, scope, |s.args|, t) && Holds(env, scope, s, m)
    requires m' == m.(pc := m.pc + 1, cells := m.cells[SlotOf(env, d) := v])
    ensures Holds(env, scope, s.(vars := s.vars[d := v]), m')
  {
  }

  lemma SimReturn(code: seq<Instr>, m: Machine, c: Cmd, k: Counters, env: Numbers, scope: set<nat>, fuel: nat, s: Store)
      returns (n: nat, m': Machine)
    requires c.Return? && At(code, m.pc, GenCmd(c, k, env).value.code)
    requires Scoped(c, scope, |s.args|) && Placed(env, scope, |s.args|, k.temps) && Holds(env, scope, s, m)
    ensures CmdDone(code, m, n, m', Eval(c, fuel, s), fuel, env, scope, k.temps, m.pc + |GenCmd(c, k, env).value.code|)
  {
    hide Run, GenExp, EvalExp, ExpScoped, Holds, Placed, Agree;
    var r := GenExp(c.e, k.temps, env);
    AtAppend(code, m.pc, r.code, [Ret(r.result)]);
    n, m' := SimExp(code, m, c.e, k.temps, env, scope, s);
    if EvalExp(c.e, s).Some? {
      AtHead(code, m'.pc, [Ret(r.result)]);
      Last(code, m, n, m');
      HoldsAfter(env, scope, s, m, m', k.temps);
      n := n + 1;
    }
  }

  lemma {:induction false} SimIf(code: seq<Instr>, m: Machine, c: Cmd, k: Counters, env: Numbers, scope: set<nat>,
                                 fuel: nat, s: Store)
      returns (n: nat, m': Machine)
    requires c.If? && GenCmd(c, k, env).Some? && At(code, m.pc, GenCmd(c, k, env).value.code) && LabelsOnce(code)
    requires Scoped(c, scope, |s.args|) && Placed(env, scope, |s.args|, k.temps) && Holds(env, scope, s, m)
    ensures CmdDone(code, m, n, m', Eval(c, fuel, s), fuel, env, scope, k.temps, m.pc + |GenCmd(c, k, env).value.code|)
    decreases fuel, c, 0
  {
    hide *;
    var lf, lt, k1 := k.labels + 1, k.labels + 2, k.(labels := k.labels + 2);
    var g := GenCond(c.c, lt, lf, k1, env);
    IfParts(c, k, env, scope, fuel, s);
    var b := GenCmd(c.body, g.value.k, env).value;
    var yes, no := Branches(code, m.pc, g.value.code, lt, b.code, lf);
    var n1, m1 := SimCond(code, m, c.c, lt, lf, yes, no, k1, env, scope, s);
    CondThen(code, m, n1, m1, s, fuel, EvalCond(c.c, s), yes, no, env, scope, k.temps, k.temps);
    n, m' := n1, m1;
    if EvalCond(c.c, s) == Some(true) {
      PlacedLater(env, scope, |s.args|, k.temps, g.value.k.temps);
      var n2, m2 := SimCmd(code, m1, c.body, g.value.k, env, scope, fuel, s);
      n2, m2 := CmdBranch(code, m1, n2, m2, Eval(c.body, fuel, s), fuel, env, scope, g.value.k.temps, yes + |b.code|,
                          lf, no);
      SameOnSelf(env, scope);
      CmdChain(code, m, n1, m1, n2, m2, Eval(c.body, fuel, s), fuel, fuel, env, scope, k.temps, no, env, scope,
               g.value.k.temps);
      n, m' := n1 + n2, m2;
    }
  }

  lemma IfParts(c: Cmd, k: Counters, env: Numbers, scope: set<nat>, fuel: nat, s: Store)
    requires c.If? && GenCmd(c, k, env).Some? && Scoped(c, scope, |s.args|)
    ensures
      var lf, lt := k.labels + 1, k.labels + 2;
      var g := GenCond(c.c, lt, lf, k.(labels := k.labels + 2), env);
      && g.Some? && GenCmd(c.body, g.value.k, env).Some?
      && GenCmd(c, k, env).value.code
          == g.value.code + LabelCode(lt) + GenCmd(c.body, g.value.k, env).value.code + LabelCode(lf)
    ensures CondScoped(c.c, scope, |s.args|) && Scoped(c.body, scope, |s.args|)
    ensures Eval(c, fuel, s) == (match EvalCond(c.c, s)
                                 case None => Undefined
                                 case Some(b) => if b then Eval(c.body, fuel, s) else Normal(s))
  {
    hide GenCond, EvalCond, CondScoped;
  }

  lemma SameOnSelf(env: Numbers, scope: set<nat>)
    ensures SameOn(env, env, scope)
  {
  }

  // a; label l1; b; label l2
  lemma Branches(code: seq<Instr>, at: nat, a: seq<Instr>, l1: nat, b: seq<Instr>, l2: nat) returns (yes: nat, no: nat)
    requires LabelsOnce(code) && At(code, at, a + LabelCode(l1) + b + LabelCode(l2))
    ensures yes == at + |a| + 2 && no == yes + |b| + 2 == at + |a + LabelCode(l1) + b + LabelCode(l2)|
    ensures At(code, at, a) && Lands(code, l1, yes) && At(code, yes, b) && Lands(code, l2, no)
    ensures yes + |b| < |code| && code[yes + |b|] == Br(l2)
  {
    hide LabelsOnce, Lands, At;
    AtAppend(code, at, a + LabelCode(l1) + b, LabelCode(l2));
    yes := Middle(code, at, a, l1, b);
    no := yes + |b| + 2;
    LabelAt(code, yes + |b|, l2);
  }

  lemma {:induction false} SimIfElse(code: seq<Instr>, m: Machine, c: Cmd, k: Counters, env: Numbers, scope: set<nat>,
                                     fuel: nat, s: Store)
      returns (n: nat, m': Machine)
    requires c.IfElse? && GenCmd(c, k, env).Some? && At(code, m.pc, GenCmd(c, k, env).value.code) && LabelsOnce(code)
    requires Scoped(c, scope, |s.args|) && Placed(env, scope, |s.args|, k.temps) && Holds(env, scope, s, m)
    ensures CmdDone(code, m, n, m', Eval(c, fuel, s), fuel, env, scope, k.temps, m.pc + |GenCmd(c, k, env).value.code|)
    decreases fuel, c, 0
  {
    hide *;
    var lt, lf, la := k.labels + 1, k.labels + 2, k.labels + 3;
    var k1 := k.(labels := la);
    var g := GenCond(c.c, lt, lf, k1, env);
    IfElseParts(c, k, env, scope, fuel, s);
    var b1 := GenCmd(c.c1, g.value.k, env).value;
    var b2 := GenCmd(c.c2, b1.k, b1.env).value;
    var yes, no, end := ThreeWays(code, m.pc, g.value.code, lt, b1.code, la, lf, b2.code);
    var n1, m1 := SimCond(code, m, c.c, lt, lf, yes, no, k1, env, scope, s);
    CondThen(code, m, n1, m1, s, fuel, EvalCond(c.c, s), yes, no, env, scope, k.temps, k.temps);
    n, m' := n1, m1;
    if EvalCond(c.c, s) == Some(true) {
      PlacedLater(env, scope, |s.args|, k.temps, g.value.k.temps);
      var n2, m2 := SimCmd(code, m1, c.c1, g.value.k, env, scope, fuel, s);
      n2, m2 := CmdBranch(code, m1, n2, m2, Eval(c.c1, fuel, s), fuel, env, scope, g.value.k.temps, yes + |b1.code|,
                          la, end);
      SameOnSelf(env, scope);
      CmdChain(code, m, n1, m1, n2, m2, Eval(c.c1, fuel, s), fuel, fuel, env, scope, k.temps, end, env, scope,
               g.value.k.temps);
      n, m' := n1 + n2, m2;
    } else if EvalCond(c.c, s) == Some(false) {
      CmdKeepsNumbers(c.c1, g.value.k, env, scope, |s.args|);
      HoldsSame(env, b1.env, scope, scope, s, m1);
      PlacedSame(env, b1.env, scope, |s.args|, k.temps);
      PlacedLater(b1.env, scope, |s.args|, k.temps, b1.k.temps);
      var n2, m2 := SimCmd(code, m1, c.c2, b1.k, b1.env, scope, fuel, s);
      n2, m2 := CmdBranch(code, m1, n2, m2, Eval(c.c2, fuel, s), fuel, b1.env, scope, b1.k.temps, no + |b2.code|, la,
                          end);
      CmdChain(code, m, n1, m1, n2, m2, Eval(c.c2, fuel, s), fuel, fuel, env, scope, k.temps, end, b1.env, scope,
               b1.k.temps);
      n, m' := n1 + n2, m2;
    } else {
      CmdEnds(code, m, n, m', Undefined, fuel, env, scope, k.temps, no, end);
    }
  }

  lemma IfElseParts(c: Cmd, k: Counters, env: Numbers, scope: set<nat>, fuel: nat, s: Store)
    requires c.IfElse? && GenCmd(c, k, env).Some? && Scoped(c, scope, |s.args|)
    ensures
      var lt, lf, la := k.labels + 1, k.labels + 2, k.labels + 3;
      var g := GenCond(c.c, lt, lf, k.(labels := la), env);
      && g.Some? && GenCmd(c.c1, g.value.k, env).Some?
      && var b1 := GenCmd(c.c1, g.value.k, env).value;
      && GenCmd(c.c2, b1.k, b1.env).Some?
      && GenCmd(c, k, env).value.code
          == g.value.code + LabelCode(lt) + b1.code + [Br(la)] + LabelCode(lf) + GenCmd(c.c2, b1.k, b1.env).value.code
              + LabelCode(la)
    ensures CondScoped(c.c, scope, |s.args|) && Scoped(c.c1, scope, |s.args|) && Scoped(c.c2, scope, |s.args|)
    ensures Eval(c, fuel, s) == (match EvalCond(c.c, s)
                                 case None => Undefined
                                 case Some(b) => if b then Eval(c.c1, fuel, s) else Eval(c.c2, fuel, s))
  {
    hide GenCond, EvalCond, CondScoped;
  }

  // a; label l1; b1; branch la; label l2; b2; label la
  lemma ThreeWays(code: seq<Instr>, at: nat, a: seq<Instr>, l1: nat, b1: seq<Instr>, la: nat, l2: nat, b2: seq<Instr>)
      returns (yes: nat, no: nat, end: nat)
    requires LabelsOnce(code) && At(code, at, a + LabelCode(l1) + b1 + [Br(la)] + LabelCode(l2) + b2 + LabelCode(la))
    ensures yes == at + |a| + 2 && no == yes + |b1| + 3 && end == no + |b2| + 2
    ensures end == at + |a + LabelCode(l1) + b1 + [Br(la)] + LabelCode(l2) + b2 + LabelCode(la)|
    ensures At(code, at, a) && Lands(code, l1, yes) && At(code, yes, b1)
    ensures Lands(code, l2, no) && At(code, no, b2) && Lands(code, la, end)
    ensures yes + |b1| < |code| && code[yes + |b1|] == Br(la)
    ensures no + |b2| < |code| && code[no + |b2|] == Br(la)
  {
    hide LabelsOnce, Lands, At;
    var front := a + LabelCode(l1) + b1 + [Br(la)];
    var p, q := Branches(code, at, front, l2, b2, la);
    no, end := p, q;
    AtAppend(code, at, a + LabelCode(l1) + b1, [Br(la)]);
    AtHead(code, at + |a + LabelCode(l1) + b1|, [Br(la)]);
    yes := Middle(code, at, a, l1, b1);
  }

  // The code of a loop after its first test: the body, the second test, and where both go.
  ghost predicate LoopAt(code: seq<Instr>, w: Cmd, lWhile: nat, lBreak: nat, k: Counters, env: Numbers, bodyAt: nat,
                         end: nat)
    requires w.While?
  {
    var b := GenCmd(w.body, k, env);
    && b.Some? && At(code, bodyAt, b.value.code)
    && GenCond(w.c, lWhile, lBreak, b.value.k, b.value.env).Some?
    && At(code, bodyAt + |b.value.code|, GenCond(w.c, lWhile, lBreak, b.value.k, b.value.env).value.code)
    && Lands(code, lWhile, bodyAt) && Lands(code, lBreak, end)
  }

  // From either copy of the test: the same number of iterations as the source makes.
  lemma {:induction false} SimLoop(code: seq<Instr>, m: Machine, w: Cmd, lWhile: nat, lBreak: nat, kc: Counters,
                                   envc: Numbers, k: Counters, env: Numbers, bodyAt: nat, end: nat, scope: set<nat>,
                                   fuel: nat, s: Store, t: nat)
      returns (n: nat, m': Machine)
    requires w.While? && LoopAt(code, w, lWhile, lBreak, k, env, bodyAt, end) && LabelsOnce(code)
    requires GenCond(w.c, lWhile, lBreak, kc, envc).Some?
        && At(code, m.pc, GenCond(w.c, lWhile, lBreak, kc, envc).value.code)
    requires Scoped(w, scope, |s.args|) && Placed(env, scope, |s.args|, t) && t <= k.temps && t <= kc.temps
    requires SameOn(env, envc, scope) && Holds(env, scope, s, m)
    ensures CmdDone(code, m, n, m', Eval(w, fuel, s), fuel, env, scope, t, end)
    decreases fuel, w, 0
  {
    hide *;
    Stay(code, m);
    n, m' := 0, m;
    LoopParts(w, scope, fuel, s);
    if fuel == 0 {
      OutOfFuel(code, m, w, env, scope, s, t, end);
    } else {
      PlacedSame(env, envc, scope, |s.args|, t);
      PlacedLater(envc, scope, |s.args|, t, kc.temps);
      HoldsSame(env, envc, scope, scope, s, m);
      LoopLands(code, w, lWhile, lBreak, k, env, bodyAt, end);
      var n1, m1 := SimCond(code, m, w.c, lWhile, lBreak, bodyAt, end, kc, envc, scope, s);
      CondThen(code, m, n1, m1, s, fuel, EvalCond(w.c, s), bodyAt, end, env, scope, t, kc.temps);
      n, m' := n1, m1;
      if EvalCond(w.c, s) == Some(true) {
        n, m' := SimBody(code, m, n1, m1, w, lWhile, lBreak, k, env, bodyAt, end, scope, fuel, s, t);
      }
    }
  }

  lemma LoopParts(w: Cmd, scope: set<nat>, fuel: nat, s: Store)
    requires w.While? && Scoped(w, scope, |s.args|)
    ensures CondScoped(w.c, scope, |s.args|) && Scoped(w.body, scope, |s.args|)
    ensures fuel > 0 ==>
              Eval(w, fuel, s) == (match EvalCond(w.c, s)
                                   case None => Undefined
                                   case Some(true) =>
                                     var o := Eval(w.body, fuel - 1, s);
                                     if o.Normal? then Eval(w, fuel - 1, o.s) else o
                                   case Some(false) => Normal(s))
  {
    hide EvalCond, CondScoped;
  }

  lemma OutOfFuel(code: seq<Instr>, m: Machine, w: Cmd, env: Numbers, scope: set<nat>, s: Store, t: nat, end: nat)
    requires w.While?
    ensures CmdDone(code, m, 0, m, Eval(w, 0, s), 0, env, scope, t, end)
  {
    Stay(code, m);
  }

  lemma LoopLands(code: seq<Instr>, w: Cmd, lWhile: nat, lBreak: nat, k: Counters, env: Numbers, bodyAt: nat, end: nat)
    requires w.While? && LoopAt(code, w, lWhile, lBreak, k, env, bodyAt, end)
    ensures Lands(code, lWhile, bodyAt) && Lands(code, lBreak, end)
    ensures
      var b := GenCmd(w.body, k, env);
      && b.Some? && At(code, bodyAt, b.value.code)
      && GenCond(w.c, lWhile, lBreak, b.value.k, b.value.env).Some?
      && At(code, bodyAt + |b.value.code|, GenCond(w.c, lWhile, lBreak, b.value.k, b.value.env).value.code)
  {
    hide GenCmd, GenCond, At, Lands;
  }

  // The body, and what follows it.
  lemma {:induction false} SimBody(code: seq<Instr>, m: Machine, n1: nat, m1: Machine, w: Cmd, lWhile: nat,
                                   lBreak: nat, k: Counters, env: Numbers, bodyAt: nat, end: nat, scope: set<nat>,
                                   fuel: nat, s: Store, t: nat)
      returns (n: nat, m': Machine)
    requires w.While? && LoopAt(code, w, lWhile, lBreak, k, env, bodyAt, end) && LabelsOnce(code) && fuel > 0
    requires Run(code, m, n1) == Running(m1) && n1 > 0 && m1.pc == bodyAt && Agree(m.temps, m1.temps, t)
    requires Scoped(w, scope, |s.args|) && Placed(env, scope, |s.args|, t) && t <= k.temps && Holds(env, scope, s, m1)
    ensures
      var o := Eval(w.body, fuel - 1, s);
      CmdDone(code, m, n, m', if o.Normal? then Eval(w, fuel - 1, o.s) else o, fuel, env, scope, t, end)
    decreases fuel - 1, w, 2
  {
    hide *;
    LoopLands(code, w, lWhile, lBreak, k, env, bodyAt, end);
    LoopParts(w, scope, fuel, s);
    var b := GenCmd(w.body, k, env).value;
    PlacedLater(env, scope, |s.args|, t, k.temps);
    var n2, m2 := SimCmd(code, m1, w.body, k, env, scope, fuel - 1, s);
    var o := Eval(w.body, fuel - 1, s);
    SameOnSelf(env, scope);
    if o.Normal? {
      CmdChain(code, m, n1, m1, n2, m2, o, fuel, fuel - 1, env, scope, t, bodyAt + |b.code|, env, scope, k.temps);
      CmdKeepsNumbers(w.body, k, env, scope, |s.args|);
      CmdGoesOn(code, m, n1 + n2, m2, o, fuel, env, scope, t, bodyAt + |b.code|);
      var n3, m3 := SimLoop(code, m2, w, lWhile, lBreak, b.k, b.env, k, env, bodyAt, end, scope, fuel - 1, o.s, t);
      CmdChain(code, m, n1 + n2, m2, n3, m3, Eval(w, fuel - 1, o.s), fuel, fuel - 1, env, scope, t, end, env, scope, t);
      n, m' := n1 + n2 + n3, m3;
    } else {
      CmdEnds(code, m1, n2, m2, o, fuel - 1, env, scope, k.temps, m1.pc + |b.code|, end);
      CmdChain(code, m, n1, m1, n2, m2, o, fuel, fuel - 1, env, scope, t, end, env, scope, k.temps);
      n, m' := n1 + n2, m2;
    }
  }

  lemma {:induction false} SimWhile(code: seq<Instr>, m: Machine, c: Cmd, k: Counters, env: Numbers, scope: set<nat>,
                                    fuel: nat, s: Store)
      returns (n: nat, m': Machine)
    requires c.While? && GenCmd(c, k, env).Some? && At(code, m.pc, GenCmd(c, k, env).value.code) && LabelsOnce(code)
    requires Scoped(c, scope, |s.args|) && Placed(env, scope, |s.args|, k.temps) && Holds(env, scope, s, m)
    ensures CmdDone(code, m, n, m', Eval(c, fuel, s), fuel, env, scope, k.temps, m.pc + |GenCmd(c, k, env).value.code|)
    decreases fuel, c, 1
  {
    hide *;
    var lWhile, lBreak, k1 := k.labels + 1, k.labels + 2, k.(labels := k.labels + 2);
    var g1 := GenCond(c.c, lWhile, lBreak, k1, env);
    WhileParts(c, k, env);
    var b := GenCmd(c.body, g1.value.k, env).value;
    var g2 := GenCond(c.c, lWhile, lBreak, b.k, b.env);
    var bodyAt, end := WhileAt(code, m.pc, g1.value.code, lWhile, b.code, g2.value.code, lBreak);
    LoopIsAt(code, c, lWhile, lBreak, g1.value.k, env, bodyAt, end);
    SameOnSelf(env, scope);
    n, m' := SimLoop(code, m, c, lWhile, lBreak, k1, env, g1.value.k, env, bodyAt, end, scope, fuel, s, k.temps);
  }

  lemma WhileParts(c: Cmd, k: Counters, env: Numbers)
    requires c.While? && GenCmd(c, k, env).Some?
    ensures
      var lWhile, lBreak := k.labels + 1, k.labels + 2;
      var g1 := GenCond(c.c, lWhile, lBreak, k.(labels := lBreak), env);
      && g1.Some? && GenCmd(c.body, g1.value.k, env).Some?
      && var b := GenCmd(c.body, g1.value.k, env).value;
      && var g2 := GenCond(c.c, lWhile, lBreak, b.k, b.env);
      && g2.Some?
      && GenCmd(c, k, env).value.code == g1.value.code + LabelCode(lWhile) + b.code + g2.value.code + LabelCode(lBreak)
  {
    hide GenCond;
  }

  lemma LoopIsAt(code: seq<Instr>, w: Cmd, lWhile: nat, lBreak: nat, k: Counters, env: Numbers, bodyAt: nat, end: nat)
    requires w.While? && GenCmd(w.body, k, env).Some?
    requires
      var b := GenCmd(w.body, k, env).value;
      && At(code, bodyAt, b.code)
      && GenCond(w.c, lWhile, lBreak, b.k, b.env).Some?
      && At(code, bodyAt + |b.code|, GenCond(w.c, lWhile, lBreak, b.k, b.env).value.code)
    requires Lands(code, lWhile, bodyAt) && Lands(code, lBreak, end)
    ensures LoopAt(code, w, lWhile, lBreak, k, env, bodyAt, end)
  {
    hide GenCmd, GenCond, At, Lands;
  }

  // a; label l1; b; c; label l2
  lemma WhileAt(code: seq<Instr>, at: nat, a: seq<Instr>, l1: nat, b: seq<Instr>, c: seq<Instr>, l2: nat)
      returns (bodyAt: nat, end: nat)
    requires LabelsOnce(code) && At(code, at, a + LabelCode(l1) + b + c + LabelCode(l2))
    ensures bodyAt == at + |a| + 2 && end == at + |a + LabelCode(l1) + b + c + LabelCode(l2)|
    ensures At(code, at, a) && Lands(code, l1, bodyAt) && At(code, bodyAt, b) && At(code, bodyAt + |b|, c)
        && Lands(code, l2, end)
  {
    hide LabelsOnce, Lands, At;
    assert a + LabelCode(l1) + b + c + LabelCode(l2) == a + LabelCode(l1) + (b + c) + LabelCode(l2);
    var yes, no := Branches(code, at, a, l1, b + c, l2);
    AtAppend(code, yes, b, c);
    bodyAt, end := yes, no;
  }

  // ----- functions -----

  // The global variables have cells of their own, numbered up to t.
  ghost predicate GlobalsPlaced(env: Numbers, globals: set<nat>, t: nat) {
    && (forall d :: d in globals ==> d in env.vars && env.vars[d].Global? && env.vars[d].n <= t)
    && (forall d, d' :: d in globals && d' in globals && d != d' ==> env.vars[d] != env.vars[d'])
  }

  lemma {:induction false} GenGlobalsPlaces(globals: seq<nat>, t: nat, env: Numbers, before: set<nat>)
    requires GlobalsPlaced(env, before, t) && Set(globals) !! before
    requires forall i, j :: 0 <= i < j < |globals| ==> globals[i] != globals[j]
    ensures GlobalsPlaced(GenGlobals(globals, t, env), before + Set(globals), t + |globals|)
    decreases globals
  {
    if globals == [] {
      assert before + Set(globals) == before;
    } else {
      var d := globals[0];
      assert d in Set(globals) && Set(globals) == {d} + Set(globals[1..]);
      GenGlobalsPlaces(globals[1..], t + 1, env.(vars := env.vars[d := Global(t + 1)]), before + {d});
      assert before + {d} + Set(globals[1..]) == before + Set(globals);
    }
  }

  // The machine at a call: the arguments in the parameters' temporaries, the globals in their cells.
  ghost predicate Called(m: Machine, s: Store, k: Counters, env: Numbers, globals: set<nat>) {
    && m.pc == 0
    && (forall p: nat :: p < |s.args| ==>
          ParamNumbers(|s.args|, k.temps)[p] in m.temps && m.temps[ParamNumbers(|s.args|, k.temps)[p]] == s.args[p])
    && (forall d :: d in globals ==> d in s.vars && SlotOf(env, d) in m.cells && m.cells[SlotOf(env, d)] == s.vars[d])
  }

  // The values of the globals afterwards.
  ghost predicate GlobalsAre(m: Machine, s: Store, env: Numbers, globals: set<nat>) {
    forall d :: d in globals ==>
      && (d in s.vars <==> SlotOf(env, d) in m.cells)
      && (d in s.vars && SlotOf(env, d) in m.cells ==> m.cells[SlotOf(env, d)] == s.vars[d])
  }

  lemma CalledHolds(m: Machine, s: Store, k: Counters, env: Numbers, env': Numbers, globals: set<nat>)
    requires GlobalsPlaced(env, globals, k.temps) && Called(m, s, k, env, globals)
    requires env' == env.(params := ParamNumbers(|s.args|, k.temps))
    ensures Placed(env', globals, |s.args|, k.temps + |s.args|) && Holds(env', globals, s, m)
  {
    assert forall p: nat :: p < |s.args| ==> ParamOf(env', p) == ParamNumbers(|s.args|, k.temps)[p];
    assert forall d :: SlotOf(env', d) == SlotOf(env, d);
  }

  // What one fuel amount says about the function as a whole.
  lemma CallWithFuel(body: Cmd, s: Store, m: Machine, k: Counters, env: Numbers, globals: set<nat>, fuel: nat)
      returns (n: nat, last: Machine)
    requires GenFunc(|s.args|, body, k, env).Some? && Scoped(body, globals, |s.args|)
    requires GlobalsPlaced(env, globals, k.temps) && Called(m, s, k, env, globals)
    ensures
      var code, o := GenFunc(|s.args|, body, k, env).value.code, Eval(body, fuel, s);
      && (o.Timeout? ==> n >= fuel && Run(code, m, n).Running?)
      && (o.Undefined? || o.Normal? ==> Run(code, m, n).Fault?)
      && (o.Returned? ==> Run(code, m, n) == Stopped(last, o.value) && GlobalsAre(last, o.s, env, globals))
  {
    hide GenCmd, LabelCount, TempCount, Placed, Holds, Eval, Scoped, GlobalsPlaced, Run, ParamNumbers, At;
    var args := |s.args|;
    var k1, env1 := k.(temps := k.temps + args), env.(params := ParamNumbers(args, k.temps));
    var code := GenCmd(body, k1, env1).value.code;
    TextWellFormed(body, k1, env1);
    CalledHolds(m, s, k, env, env1, globals);
    AtStart(code);
    n, last := SimCmd(code, m, body, k1, env1, globals, fuel, s);
    var o := Eval(body, fuel, s);
    if o.Normal? {
      Last(code, m, n, last);
      n := n + 1;
    } else if o.Returned? {
      HoldsGlobals(last, o.s, env, env1, globals);
    }
  }

  lemma AtStart(code: seq<Instr>)
    ensures At(code, 0, code)
  {
  }

  lemma HoldsGlobals(m: Machine, s: Store, env: Numbers, env': Numbers, globals: set<nat>)
    requires Holds(env', globals, s, m) && env'.vars == env.vars
    ensures GlobalsAre(m, s, env, globals)
  {
    assert forall d :: SlotOf(env', d) == SlotOf(env, d);
  }

  predicate Fails(o: Outcome) {
    o.Undefined? || o.Normal?
  }

  // The function returns exactly when its source does, with the same value and the same
  // globals. It faults exactly when the source does something undefined or ends without a
  // return; otherwise both run forever.
  lemma FunctionCorrect(body: Cmd, s: Store, m: Machine, k: Counters, env: Numbers, globals: set<nat>)
    requires GenFunc(|s.args|, body, k, env).Some? && Scoped(body, globals, |s.args|)
    requires GlobalsPlaced(env, globals, k.temps) && Called(m, s, k, env, globals)
    ensures
      var code := GenFunc(|s.args|, body, k, env).value.code;
      && ((exists fuel: nat :: Eval(body, fuel, s).Returned?) <==> exists n: nat :: Run(code, m, n).Stopped?)
      && ((exists fuel: nat :: Fails(Eval(body, fuel, s))) <==> exists n: nat :: Run(code, m, n).Fault?)
      && (forall fuel: nat, n: nat :: Eval(body, fuel, s).Returned? && Run(code, m, n).Stopped? ==>
            && Run(code, m, n).exit == Eval(body, fuel, s).value
            && GlobalsAre(Run(code, m, n).last, Eval(body, fuel, s).s, env, globals))
  {
    hide Run, Eval, GenFunc, Scoped, GlobalsPlaced, Called, GlobalsAre;
    var code := GenFunc(|s.args|, body, k, env).value.code;
    if n: nat :| Run(code, m, n).Stopped? {
      var j, _ := CallWithFuel(body, s, m, k, env, globals, n + 1);
      OneEnd(code, m, n, j);
      assert Eval(body, n + 1, s).Returned?;
    }
    if n: nat :| Run(code, m, n).Fault? {
      var j, _ := CallWithFuel(body, s, m, k, env, globals, n + 1);
      OneEnd(code, m, n, j);
      assert Fails(Eval(body, n + 1, s));
    }
    if fuel: nat :| Eval(body, fuel, s).Returned? {
      var j, _ := CallWithFuel(body, s, m, k, env, globals, fuel);
      assert Run(code, m, j).Stopped?;
    }
    if fuel: nat :| Fails(Eval(body, fuel, s)) {
      var j, _ := CallWithFuel(body, s, m, k, env, globals, fuel);
      assert Run(code, m, j).Fault?;
    }
    forall fuel: nat, n: nat | Eval(body, fuel, s).Returned? && Run(code, m, n).Stopped?
      ensures Run(code, m, n).exit == Eval(body, fuel, s).value
      ensures GlobalsAre(Run(code, m, n).last, Eval(body, fuel, s).s, env, globals)
    {
      var j, _ := CallWithFuel(body, s, m, k, env, globals, fuel);
      OneEnd(code, m, n, j);
    }
  }

  // However long it is run, a run ends in one way.
  lemma OneEnd(code: seq<Instr>, m: Machine, a: nat, b: nat)
    ensures !Run(code, m, a).Running? && !Run(code, m, b).Running? ==> Run(code, m, a) == Run(code, m, b)
    ensures !Run(code, m, a).Running? && a <= b ==> !Run(code, m, b).Running?
    ensures !Run(code, m, b).Running? && b <= a ==> !Run(code, m, a).Running?
  {
    hide Iterate;
    if !Run(code, m, a).Running? && a <= b {
      IterateStopped(Stepper(code), m, a, b);
    } else if !Run(code, m, b).Running? && b <= a {
      IterateStopped(Stepper(code), m, b, a);
    }
  }
}
