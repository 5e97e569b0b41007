/**
 The LLVM instructions the generator writes, the generator as functions of its two counters,
 and what holds of the text alone: every label is defined once, every branch has a target,
 and every temporary is assigned in one place.
 */
module LlvmCode {
  import opened Base
  import opened Word32
  import opened Monga

  // Where a variable lives: `%tN` made by alloca, or the global `@tN`.
  datatype Slot = Local(n: nat) | Global(n: nat)

  datatype Instr =
    | Label(l: nat)                                // lN:
    | Br(l: nat)                                   // br label %lN
    | CondBr(t: nat, yes: nat, no: nat)            // br i1 %tN, label %lN, label %lN
    | Icmp(t: nat, cmp: CompareOp, a: nat, b: nat)  // %tN = icmp op i32 %tN, %tN
    | IcmpZero(t: nat, a: nat)                     // %tN = icmp eq i32 %tN, 0
    | Binary(t: nat, op: ArithOp, a: nat, b: nat)  // %tN = op i32 %tN, %tN
    | MulMinusOne(t: nat, a: nat)                  // %tN = mul i32 %tN, -1
    | AddZero(t: nat, n: Int32)                    // %tN = add i32 0, n
    | Load(t: nat, slot: Slot)                     // %tN = load i32* slot
    | StoreTo(slot: Slot, a: nat)                  // store i32 %tN, i32* slot
    | Alloca(t: nat)                               // %tN = alloca i32
    | Ret(a: nat)                                  // ret i32 %tN

  // The counters of temporaries and labels: the last numbers given out.
  datatype Counters = Counters(temps: nat, labels: nat)

  // The numbers written into the declarations so far.
  datatype Numbers = Numbers(vars: map<nat, Slot>, params: map<nat, nat>)

  // A declaration that has not been generated yet has no number; 0 stands for that.
  function SlotOf(env: Numbers, d: nat): Slot {
    if d in env.vars then env.vars[d] else Local(0)
  }

  function ParamOf(env: Numbers, p: nat): nat {
    if p in env.params then env.params[p] else 0
  }

  // ----- expressions -----

  // The code, the temporary that holds the value, and the last temporary used. Reading a
  // parameter uses up a number without assigning it.
  datatype ExpCode = ExpCode(code: seq<Instr>, result: nat, temp: nat)

  function GenExp(e: Exp, t: nat, env: Numbers): (r: ExpCode)
    ensures r.temp > t
  {
    match e
    case Int(n) => ExpCode([AddZero(t + 1, n)], t + 1, t + 1)
    case Var(d) => ExpCode([Load(t + 1, SlotOf(env, d))], t + 1, t + 1)
    case Param(p) => ExpCode([], ParamOf(env, p), t + 1)
    case Minus(e1) =>
      var r1 := GenExp(e1, t, env);
      ExpCode(r1.code + [MulMinusOne(r1.temp + 1, r1.result)], r1.temp + 1, r1.temp + 1)
    case Arith(op, e1, e2) =>
      var r1 := GenExp(e1, t, env);
      var r2 := GenExp(e2, r1.temp, env);
      ExpCode(r1.code + r2.code + [Binary(r2.temp + 1, op, r1.result, r2.result)], r2.temp + 1, r2.temp + 1)
  }

  function NodesOf(e: Exp): nat {
    match e
    case Minus(e1) => NodesOf(e1) + 1
    case Arith(_, e1, e2) => NodesOf(e1) + NodesOf(e2) + 1
    case _ => 1
  }

  // Every node of an expression takes one number, a parameter too, and the last one is the
  // result's unless it is a parameter.
  lemma {:induction false} OneNumberEach(e: Exp, t: nat, env: Numbers)
    ensures GenExp(e, t, env).temp == t + NodesOf(e)
    ensures GenExp(e, t, env).result == if e.Param? then ParamOf(env, e.p) else t + NodesOf(e)
    decreases e
  {
    match e
    case Minus(e1) => OneNumberEach(e1, t, env);
    case Arith(_, e1, e2) =>
      OneNumberEach(e1, t, env);
      OneNumberEach(e2, GenExp(e1, t, env).temp, env);
    case _ =>
  }

  // ----- conditions -----

  // genLabel: the branch ends the block before the label.
  function LabelCode(l: nat): seq<Instr> {
    [Br(l), Label(l)]
  }

  datatype CondCode = CondCode(code: seq<Instr>, k: Counters)

  // Jumps to `lt` when the condition holds and to `lf` when it does not. None is the exit on
  // a condition that is neither a comparison, a connective nor a literal.
  function GenCond(c: Cond, lt: nat, lf: nat, k: Counters, env: Numbers): (r: Option<CondCode>)
    ensures r.Some? ==> r.value.k.temps > k.temps && r.value.k.labels >= k.labels
    decreases c
  {
    match c
    case Or(c1, c2) =>
      var nl := k.labels + 1;
      var g1 := GenCond(c1, lt, nl, k.(labels := nl), env);
      if g1.None? then None
      else
        var g2 := GenCond(c2, lt, lf, g1.value.k, env);
        if g2.None? then None
        else Some(CondCode(g1.value.code + LabelCode(nl) + g2.value.code, g2.value.k))
    case Not(c1) => GenCond(c1, lf, lt, k, env)
    case And(c1, c2) =>
      var nl := k.labels + 1;
      var g1 := GenCond(c1, nl, lf, k.(labels := nl), env);
      if g1.None? then None
      else
        var g2 := GenCond(c2, lt, lf, g1.value.k, env);
        if g2.None? then None
        else Some(CondCode(g1.value.code + LabelCode(nl) + g2.value.code, g2.value.k))
    case Compare(op, e1, e2) =>
      var r1 := GenExp(e1, k.temps, env);
      var r2 := GenExp(e2, r1.temp, env);
      var t := r2.temp + 1;
      Some(CondCode(r1.code + r2.code + [Icmp(t, op, r1.result, r2.result), CondBr(t, lt, lf)], k.(temps := t)))
    case Literal(n) =>
      var r := GenExp(Int(n), k.temps, env);
      var t := r.temp + 1;
      Some(CondCode(r.code + [IcmpZero(t, r.result), CondBr(t, lf, lt)], k.(temps := t)))
    case Value(_) => None
  }

  // ----- commands -----

  datatype CmdCode = CmdCode(code: seq<Instr>, k: Counters, env: Numbers)

  // One alloca for each variable of the block.
  function GenVars(vars: seq<nat>, t: nat, env: Numbers): (r: CmdCode)
    ensures r.k == Counters(t + |vars|, 0)
  {
    if vars == [] then CmdCode([], Counters(t, 0), env)
    else
      var r := GenVars(vars[1..], t + 1, env.(vars := env.vars[vars[0] := Local(t + 1)]));
      r.(code := [Alloca(t + 1)] + r.code)
  }

  function GenCmd(c: Cmd, k: Counters, env: Numbers): (r: Option<CmdCode>)
    ensures r.Some? ==> r.value.k.temps >= k.temps && r.value.k.labels >= k.labels
    decreases c
  {
    match c
    case While(cond, body) =>
      var lWhile, lBreak := k.labels + 1, k.labels + 2;
      var g1 := GenCond(cond, lWhile, lBreak, k.(labels := lBreak), env);
      if g1.None? then None
      else
        var b := GenCmd(body, g1.value.k, env);
        if b.None? then None
        else
          var g2 := GenCond(cond, lWhile, lBreak, b.value.k, b.value.env);
          if g2.None? then None
          else Some(CmdCode(g1.value.code + LabelCode(lWhile) + b.value.code + g2.value.code + LabelCode(lBreak),
                            g2.value.k, b.value.env))
    case If(cond, body) =>
      var lf, lt := k.labels + 1, k.labels + 2;
      var g := GenCond(cond, lt, lf, k.(labels := lt), env);
      if g.None? then None
      else
        var b := GenCmd(body, g.value.k, env);
        if b.None? then None
        else Some(b.value.(code := g.value.code + LabelCode(lt) + b.value.code + LabelCode(lf)))
    case IfElse(cond, c1, c2) =>
      var lt, lf, lAfterElse := k.labels + 1, k.labels + 2, k.labels + 3;
      var g := GenCond(cond, lt, lf, k.(labels := lAfterElse), env);
      if g.None? then None
      else
        var b1 := GenCmd(c1, g.value.k, env);
        if b1.None? then None
        else
          var b2 := GenCmd(c2, b1.value.k, b1.value.env);
          if b2.None? then None
          else Some(b2.value.(code := g.value.code + LabelCode(lt) + b1.value.code + [Br(lAfterElse)]
                                      + LabelCode(lf) + b2.value.code + LabelCode(lAfterElse)))
    case Assign(d, e) =>
      var r := GenExp(e, k.temps, env);
      Some(CmdCode(r.code + [StoreTo(SlotOf(env, d), r.result)], k.(temps := r.temp), env))
    case Return(e) =>
      var r := GenExp(e, k.temps, env);
      Some(CmdCode(r.code + [Ret(r.result)], k.(temps := r.temp), env))
    case Block(vars, cmds) =>
      var v := GenVars(vars, k.temps, env);
      var b := GenCmds(cmds, k.(temps := k.temps + |vars|), v.env);
      if b.None? then None else Some(b.value.(code := v.code + b.value.code))
  }

  function GenCmds(cs: Cmds, k: Counters, env: Numbers): (r: Option<CmdCode>)
    ensures r.Some? ==> r.value.k.temps >= k.temps && r.value.k.labels >= k.labels
    decreases cs
  {
    match cs
    case End => Some(CmdCode([], k, env))
    case Then(c, rest) =>
      var g1 := GenCmd(c, k, env);
      if g1.None? then None
      else
        var g2 := GenCmds(rest, g1.value.k, g1.value.env);
        if g2.None? then None else Some(g2.value.(code := g1.value.code + g2.value.code))
  }

  // ----- definitions -----

  // One `@tN = common global i32 0` for each global variable.
  function GenGlobals(globals: seq<nat>, t: nat, env: Numbers): Numbers {
    if globals == [] then env
    else GenGlobals(globals[1..], t + 1, env.(vars := env.vars[globals[0] := Global(t + 1)]))
  }

  // The parameters take the next numbers, then comes the body.
  function ParamNumbers(args: nat, t: nat): (numbers: map<nat, nat>)
    ensures forall p: nat :: p in numbers <==> p < args
    ensures forall p: nat :: p < args ==> numbers[p] == t + 1 + p
  {
    if args == 0 then map[] else ParamNumbers(args - 1, t)[args - 1 := t + args]
  }

  function GenFunc(args: nat, body: Cmd, k: Counters, env: Numbers): Option<CmdCode> {
    GenCmd(body, k.(temps := k.temps + args), env.(params := ParamNumbers(args, k.temps)))
  }

  // ----- when the generator exits -----

  predicate CondAccepted(c: Cond) {
    match c
    case Compare(_, _, _) => true
    case Literal(_) => true
    case Value(_) => false
    case Not(c1) => CondAccepted(c1)
    case Or(c1, c2) => CondAccepted(c1) && CondAccepted(c2)
    case And(c1, c2) => CondAccepted(c1) && CondAccepted(c2)
  }

  predicate Accepted(c: Cmd) {
    match c
    case While(cond, body) => CondAccepted(cond) && Accepted(body)
    case If(cond, body) => CondAccepted(cond) && Accepted(body)
    case IfElse(cond, c1, c2) => CondAccepted(cond) && Accepted(c1) && Accepted(c2)
    case Assign(_, _) => true
    case Return(_) => true
    case Block(_, cmds) => AllAccepted(cmds)
  }

  predicate AllAccepted(cs: Cmds) {
    match cs
    case End => true
    case Then(c, rest) => Accepted(c) && AllAccepted(rest)
  }

  lemma {:induction false} CondAcceptedIff(c: Cond, lt: nat, lf: nat, k: Counters, env: Numbers)
    ensures GenCond(c, lt, lf, k, env).Some? <==> CondAccepted(c)
    decreases c
  {
    match c
    case Not(c1) => CondAcceptedIff(c1, lf, lt, k, env);
    case Or(c1, c2) =>
      CondAcceptedIff(c1, lt, k.labels + 1, k.(labels := k.labels + 1), env);
      var g1 := GenCond(c1, lt, k.labels + 1, k.(labels := k.labels + 1), env);
      if g1.Some? {
        CondAcceptedIff(c2, lt, lf, g1.value.k, env);
      }
    case And(c1, c2) =>
      CondAcceptedIff(c1, k.labels + 1, lf, k.(labels := k.labels + 1), env);
      var g1 := GenCond(c1, k.labels + 1, lf, k.(labels := k.labels + 1), env);
      if g1.Some? {
        CondAcceptedIff(c2, lt, lf, g1.value.k, env);
      }
    case _ =>
  }

  // The generator gets through exactly when no condition is a bare variable or an arithmetic
  // expression, whatever the counters and the numbers.
  lemma {:induction false} AcceptedIff(c: Cmd, k: Counters, env: Numbers)
    ensures GenCmd(c, k, env).Some? <==> Accepted(c)
    decreases c
  {
    hide GenCond, CondAccepted, GenVars, GenExp;
    match c
    case While(cond, body) =>
      CondAcceptedIff(cond, k.labels + 1, k.labels + 2, k.(labels := k.labels + 2), env);
      var g1 := GenCond(cond, k.labels + 1, k.labels + 2, k.(labels := k.labels + 2), env);
      if g1.Some? {
        AcceptedIff(body, g1.value.k, env);
        var b := GenCmd(body, g1.value.k, env);
        if b.Some? {
          CondAcceptedIff(cond, k.labels + 1, k.labels + 2, b.value.k, b.value.env);
        }
      }
    case If(cond, body) =>
      CondAcceptedIff(cond, k.labels + 2, k.labels + 1, k.(labels := k.labels + 2), env);
      var g := GenCond(cond, k.labels + 2, k.labels + 1, k.(labels := k.labels + 2), env);
      if g.Some? {
        AcceptedIff(body, g.value.k, env);
      }
    case IfElse(cond, c1, c2) =>
      CondAcceptedIff(cond, k.labels + 1, k.labels + 2, k.(labels := k.labels + 3), env);
      var g := GenCond(cond, k.labels + 1, k.labels + 2, k.(labels := k.labels + 3), env);
      if g.Some? {
        AcceptedIff(c1, g.value.k, env);
        var b1 := GenCmd(c1, g.value.k, env);
        if b1.Some? {
          AcceptedIff(c2, b1.value.k, b1.value.env);
        }
      }
    case Block(vars, cmds) => AllAcceptedIff(cmds, k.(temps := k.temps + |vars|), GenVars(vars, k.temps, env).env);
    case _ =>
  }

  lemma {:induction false} AllAcceptedIff(cs: Cmds, k: Counters, env: Numbers)
    ensures GenCmds(cs, k, env).Some? <==> AllAccepted(cs)
    decreases cs
  {
    if cs.Then? {
      AcceptedIff(cs.first, k, env);
      var g := GenCmd(cs.first, k, env);
      if g.Some? {
        AllAcceptedIff(cs.rest, g.value.k, g.value.env);
      }
    }
  }

  // ----- labels and temporaries of the text -----

  function Defines(i: Instr): Option<nat> {
    match i
    case Icmp(t, _, _, _) => Some(t)
    case IcmpZero(t, _) => Some(t)
    case Binary(t, _, _, _) => Some(t)
    case MulMinusOne(t, _) => Some(t)
    case AddZero(t, _) => Some(t)
    case Load(t, _) => Some(t)
    case Alloca(t) => Some(t)
    case _ => None
  }

  predicate BranchesTo(i: Instr, l: nat) {
    i == Br(l) || (i.CondBr? && (i.yes == l || i.no == l))
  }

  function LabelCount(code: seq<Instr>, l: nat): nat {
    if code == [] then 0 else LabelCount(code[1..], l) + if code[0] == Label(l) then 1 else 0
  }

  function TempCount(code: seq<Instr>, t: nat): nat {
    if code == [] then 0 else TempCount(code[1..], t) + if Defines(code[0]) == Some(t) then 1 else 0
  }

  lemma {:induction false} LabelCountAppend(a: seq<Instr>, b: seq<Instr>, l: nat)
    ensures LabelCount(a + b, l) == LabelCount(a, l) + LabelCount(b, l)
    decreases a
  {
    if a == [] {
      assert a + b == b;
    } else {
      LabelCountAppend(a[1..], b, l);
      assert (a + b)[1..] == a[1..] + b;
    }
  }

  lemma {:induction false} TempCountAppend(a: seq<Instr>, b: seq<Instr>, t: nat)
    ensures TempCount(a + b, t) == TempCount(a, t) + TempCount(b, t)
    decreases a
  {
    if a == [] {
      assert a + b == b;
    } else {
      TempCountAppend(a[1..], b, t);
      assert (a + b)[1..] == a[1..] + b;
    }
  }

  lemma GlueLabels(parts: seq<seq<Instr>>, l: nat)
    requires |parts| == 5
    ensures LabelCount(parts[0] + parts[1] + parts[2] + parts[3] + parts[4], l)
         == LabelCount(parts[0], l) + LabelCount(parts[1], l) + LabelCount(parts[2], l) + LabelCount(parts[3], l)
            + LabelCount(parts[4], l)
  {
    LabelCountAppend(parts[0], parts[1], l);
    LabelCountAppend(parts[0] + parts[1], parts[2], l);
    LabelCountAppend(parts[0] + parts[1] + parts[2], parts[3], l);
    LabelCountAppend(parts[0] + parts[1] + parts[2] + parts[3], parts[4], l);
  }

  lemma GlueTemps(parts: seq<seq<Instr>>, t: nat)
    requires |parts| == 5
    ensures TempCount(parts[0] + parts[1] + parts[2] + parts[3] + parts[4], t)
         == TempCount(parts[0], t) + TempCount(parts[1], t) + TempCount(parts[2], t) + TempCount(parts[3], t)
            + TempCount(parts[4], t)
  {
    TempCountAppend(parts[0], parts[1], t);
    TempCountAppend(parts[0] + parts[1], parts[2], t);
    TempCountAppend(parts[0] + parts[1] + parts[2], parts[3], t);
    TempCountAppend(parts[0] + parts[1] + parts[2] + parts[3], parts[4], t);
  }

  lemma LastText(code: seq<Instr>, last: Instr, x: nat)
    ensures !last.Label? ==> LabelCount(code + [last], x) == LabelCount(code, x)
    ensures TempCount(code + [last], x) == TempCount(code, x) + if Defines(last) == Some(x) then 1 else 0
  {
    LabelCountAppend(code, [last], x);
    TempCountAppend(code, [last], x);
  }

  lemma {:induction false} ExpText(e: Exp, t: nat, env: Numbers, x: nat)
    ensures LabelCount(GenExp(e, t, env).code, x) == 0
    ensures TempCount(GenExp(e, t, env).code, x) <= if t < x <= GenExp(e, t, env).temp then 1 else 0
    decreases e
  {
    match e
    case Minus(e1) =>
      hide LabelCount, TempCount;
      ExpText(e1, t, env, x);
      var r1 := GenExp(e1, t, env);
      LastText(r1.code, MulMinusOne(r1.temp + 1, r1.result), x);
    case Arith(op, e1, e2) =>
      hide LabelCount, TempCount;
      ExpText(e1, t, env, x);
      var r1 := GenExp(e1, t, env);
      ExpText(e2, r1.temp, env, x);
      var r2 := GenExp(e2, r1.temp, env);
      LabelCountAppend(r1.code, r2.code, x);
      TempCountAppend(r1.code, r2.code, x);
      LastText(r1.code + r2.code, Binary(r2.temp + 1, op, r1.result, r2.result), x);
    case _ =>
  }

  lemma TestText(code: seq<Instr>, test: Instr, branch: Instr, x: nat)
    requires (test.Icmp? || test.IcmpZero?) && branch.CondBr?
    ensures LabelCount(code + [test, branch], x) == LabelCount(code, x)
    ensures TempCount(code + [test, branch], x) == TempCount(code, x) + if test.t == x then 1 else 0
  {
    assert code + [test, branch] == (code + [test]) + [branch];
    LabelCountAppend(code, [test], x);
    LabelCountAppend(code + [test], [branch], x);
    TempCountAppend(code, [test], x);
    TempCountAppend(code + [test], [branch], x);
  }

  // Numbers in (lo, hi] once, all others never.
  function Once(lo: nat, hi: nat, x: nat): nat {
    if lo < x <= hi then 1 else 0
  }

  lemma {:induction false} CondText(c: Cond, lt: nat, lf: nat, k: Counters, env: Numbers, x: nat)
    requires GenCond(c, lt, lf, k, env).Some?
    ensures
      var g := GenCond(c, lt, lf, k, env).value;
      && LabelCount(g.code, x) == Once(k.labels, g.k.labels, x)
      && TempCount(g.code, x) <= Once(k.temps, g.k.temps, x)
    decreases c
  {
    hide LabelCount, TempCount, LabelCode, GenExp;
    match c
    case Not(c1) => CondText(c1, lf, lt, k, env, x);
    case Or(c1, c2) =>
      var nl := k.labels + 1;
      CondText(c1, lt, nl, k.(labels := nl), env, x);
      var g1 := GenCond(c1, lt, nl, k.(labels := nl), env).value;
      CondText(c2, lt, lf, g1.k, env, x);
      var g2 := GenCond(c2, lt, lf, g1.k, env).value;
      JoinText(g1.code, nl, g2.code, x);
    case And(c1, c2) =>
      var nl := k.labels + 1;
      CondText(c1, nl, lf, k.(labels := nl), env, x);
      var g1 := GenCond(c1, nl, lf, k.(labels := nl), env).value;
      CondText(c2, lt, lf, g1.k, env, x);
      var g2 := GenCond(c2, lt, lf, g1.k, env).value;
      JoinText(g1.code, nl, g2.code, x);
    case Compare(op, e1, e2) =>
      ExpText(e1, k.temps, env, x);
      var r1 := GenExp(e1, k.temps, env);
      ExpText(e2, r1.temp, env, x);
      var r2 := GenExp(e2, r1.temp, env);
      LabelCountAppend(r1.code, r2.code, x);
      TempCountAppend(r1.code, r2.code, x);
      TestText(r1.code + r2.code, Icmp(r2.temp + 1, op, r1.result, r2.result), CondBr(r2.temp + 1, lt, lf), x);
    case Literal(n) =>
      ExpText(Int(n), k.temps, env, x);
      var r := GenExp(Int(n), k.temps, env);
      TestText(r.code, IcmpZero(r.temp + 1, r.result), CondBr(r.temp + 1, lf, lt), x);
  }

  lemma LabelText(l: nat, x: nat)
    ensures LabelCount(LabelCode(l), x) == if x == l then 1 else 0
    ensures TempCount(LabelCode(l), x) == 0
  {
    assert LabelCode(l) == [Br(l)] + [Label(l)];
    LabelCountAppend([Br(l)], [Label(l)], x);
    TempCountAppend([Br(l)], [Label(l)], x);
  }

  lemma JoinText(a: seq<Instr>, l: nat, b: seq<Instr>, x: nat)
    ensures LabelCount(a + LabelCode(l) + b, x) == LabelCount(a, x) + LabelCount(b, x) + if x == l then 1 else 0
    ensures TempCount(a + LabelCode(l) + b, x) == TempCount(a, x) + TempCount(b, x)
  {
    LabelText(l, x);
    LabelCountAppend(a, LabelCode(l), x);
    LabelCountAppend(a + LabelCode(l), b, x);
    TempCountAppend(a, LabelCode(l), x);
    TempCountAppend(a + LabelCode(l), b, x);
  }

  lemma {:induction false} VarsText(vars: seq<nat>, t: nat, env: Numbers, x: nat)
    ensures LabelCount(GenVars(vars, t, env).code, x) == 0
    ensures TempCount(GenVars(vars, t, env).code, x) == Once(t, t + |vars|, x)
    decreases vars
  {
    if vars != [] {
      var r := GenVars(vars[1..], t + 1, env.(vars := env.vars[vars[0] := Local(t + 1)]));
      VarsText(vars[1..], t + 1, env.(vars := env.vars[vars[0] := Local(t + 1)]), x);
      assert GenVars(vars, t, env).code[1..] == r.code;
    }
  }

  // Every label number the command takes is defined exactly once in its code and no other
  // label is; every temporary is assigned at most once, and only new ones are.
  lemma {:induction false} CmdText(c: Cmd, k: Counters, env: Numbers, x: nat)
    requires GenCmd(c, k, env).Some?
    ensures
      var g := GenCmd(c, k, env).value;
      && LabelCount(g.code, x) == Once(k.labels, g.k.labels, x)
      && TempCount(g.code, x) <= Once(k.temps, g.k.temps, x)
    decreases c
  {
    hide LabelCount, TempCount, LabelCode, GenCond;
    match c
    case While(cond, body) =>
      var lWhile, lBreak := k.labels + 1, k.labels + 2;
      CondText(cond, lWhile, lBreak, k.(labels := lBreak), env, x);
      var g1 := GenCond(cond, lWhile, lBreak, k.(labels := lBreak), env).value;
      CmdText(body, g1.k, env, x);
      var b := GenCmd(body, g1.k, env).value;
      CondText(cond, lWhile, lBreak, b.k, b.env, x);
      var g2 := GenCond(cond, lWhile, lBreak, b.k, b.env).value;
      LabelText(lWhile, x);
      LabelText(lBreak, x);
      GlueLabels([g1.code, LabelCode(lWhile), b.code, g2.code, LabelCode(lBreak)], x);
      GlueTemps([g1.code, LabelCode(lWhile), b.code, g2.code, LabelCode(lBreak)], x);
    case If(cond, body) =>
      var lf, lt := k.labels + 1, k.labels + 2;
      CondText(cond, lt, lf, k.(labels := lt), env, x);
      var g := GenCond(cond, lt, lf, k.(labels := lt), env).value;
      CmdText(body, g.k, env, x);
      var b := GenCmd(body, g.k, env).value;
      LabelText(lf, x);
      JoinText(g.code, lt, b.code, x);
      LabelCountAppend(g.code + LabelCode(lt) + b.code, LabelCode(lf), x);
      TempCountAppend(g.code + LabelCode(lt) + b.code, LabelCode(lf), x);
    case IfElse(cond, c1, c2) => IfElseText(c, k, env, x);
    case Assign(d, e) =>
      ExpText(e, k.temps, env, x);
      LastText(GenExp(e, k.temps, env).code, StoreTo(SlotOf(env, d), GenExp(e, k.temps, env).result), x);
    case Return(e) =>
      ExpText(e, k.temps, env, x);
      LastText(GenExp(e, k.temps, env).code, Ret(GenExp(e, k.temps, env).result), x);
    case Block(vars, cmds) =>
      var v := GenVars(vars, k.temps, env);
      VarsText(vars, k.temps, env, x);
      CmdsText(cmds, k.(temps := k.temps + |vars|), v.env, x);
      var b := GenCmds(cmds, k.(temps := k.temps + |vars|), v.env).value;
      LabelCountAppend(v.code, b.code, x);
      TempCountAppend(v.code, b.code, x);
  }

  lemma {:induction false} IfElseText(c: Cmd, k: Counters, env: Numbers, x: nat)
    requires c.IfElse? && GenCmd(c, k, env).Some?
    ensures
      var g := GenCmd(c, k, env).value;
      && LabelCount(g.code, x) == Once(k.labels, g.k.labels, x)
      && TempCount(g.code, x) <= Once(k.temps, g.k.temps, x)
    decreases c, 0
  {
    hide LabelCount, TempCount, LabelCode, GenCond;
    var lt, lf, lAfterElse := k.labels + 1, k.labels + 2, k.labels + 3;
    CondText(c.c, lt, lf, k.(labels := lAfterElse), env, x);
    var g := GenCond(c.c, lt, lf, k.(labels := lAfterElse), env).value;
    CmdText(c.c1, g.k, env, x);
    var b1 := GenCmd(c.c1, g.k, env).value;
    CmdText(c.c2, b1.k, b1.env, x);
    var b2 := GenCmd(c.c2, b1.k, b1.env).value;
    var first := g.code + LabelCode(lt) + b1.code;
    JoinText(g.code, lt, b1.code, x);
    LastText(first, Br(lAfterElse), x);
    LabelText(lAfterElse, x);
    JoinText(first + [Br(lAfterElse)], lf, b2.code, x);
    LabelCountAppend(first + [Br(lAfterElse)] + LabelCode(lf) + b2.code, LabelCode(lAfterElse), x);
    TempCountAppend(first + [Br(lAfterElse)] + LabelCode(lf) + b2.code, LabelCode(lAfterElse), x);
  }

  lemma {:induction false} CmdsText(cs: Cmds, k: Counters, env: Numbers, x: nat)
    requires GenCmds(cs, k, env).Some?
    ensures
      var g := GenCmds(cs, k, env).value;
      && LabelCount(g.code, x) == Once(k.labels, g.k.labels, x)
      && TempCount(g.code, x) <= Once(k.temps, g.k.temps, x)
    decreases cs
  {
    if cs.Then? {
      CmdText(cs.first, k, env, x);
      var g1 := GenCmd(cs.first, k, env).value;
      CmdsText(cs.rest, g1.k, g1.env, x);
      var g2 := GenCmds(cs.rest, g1.k, g1.env).value;
      LabelCountAppend(g1.code, g2.code, x);
      TempCountAppend(g1.code, g2.code, x);
    }
  }

  // ----- branch targets -----

  ghost predicate TargetsIn(code: seq<Instr>, lo: nat, hi: nat, extra: set<nat>) {
    forall i :: i in code ==> TargetIn(i, lo, hi, extra)
  }

  predicate TargetIn(i: Instr, lo: nat, hi: nat, extra: set<nat>) {
    && (i.Br? ==> lo < i.l <= hi || i.l in extra)
    && (i.CondBr? ==> (lo < i.yes <= hi || i.yes in extra) && (lo < i.no <= hi || i.no in extra))
  }

  lemma Widen(code: seq<Instr>, lo: nat, hi: nat, extra: set<nat>, lo': nat, hi': nat)
    requires TargetsIn(code, lo, hi, extra) && lo' <= lo && hi <= hi' && forall l :: l in extra ==> lo' < l <= hi'
    ensures TargetsIn(code, lo', hi', {})
  {
  }

  lemma LabelTargets(l: nat, lo: nat, hi: nat)
    requires lo < l <= hi
    ensures TargetsIn(LabelCode(l), lo, hi, {}) && TargetsIn([Br(l)], lo, hi, {})
  {
  }

  predicate Straight(code: seq<Instr>) {
    forall i :: i in code ==> !i.Br? && !i.CondBr?
  }

  lemma {:induction false} ExpStraight(e: Exp, t: nat, env: Numbers)
    ensures Straight(GenExp(e, t, env).code)
    decreases e
  {
    match e
    case Minus(e1) => ExpStraight(e1, t, env);
    case Arith(op, e1, e2) =>
      ExpStraight(e1, t, env);
      ExpStraight(e2, GenExp(e1, t, env).temp, env);
    case _ =>
  }

  lemma {:induction false} CondTargets(c: Cond, lt: nat, lf: nat, k: Counters, env: Numbers)
    requires GenCond(c, lt, lf, k, env).Some?
    ensures var g := GenCond(c, lt, lf, k, env).value; TargetsIn(g.code, k.labels, g.k.labels, {lt, lf})
    decreases c
  {
    hide GenExp;
    match c
    case Not(c1) => CondTargets(c1, lf, lt, k, env);
    case Or(c1, c2) =>
      var nl := k.labels + 1;
      CondTargets(c1, lt, nl, k.(labels := nl), env);
      var g1 := GenCond(c1, lt, nl, k.(labels := nl), env).value;
      CondTargets(c2, lt, lf, g1.k, env);
    case And(c1, c2) =>
      var nl := k.labels + 1;
      CondTargets(c1, nl, lf, k.(labels := nl), env);
      var g1 := GenCond(c1, nl, lf, k.(labels := nl), env).value;
      CondTargets(c2, lt, lf, g1.k, env);
    case Compare(op, e1, e2) =>
      ExpStraight(e1, k.temps, env);
      ExpStraight(e2, GenExp(e1, k.temps, env).temp, env);
    case Literal(n) => ExpStraight(Int(n), k.temps, env);
  }

  lemma {:induction false} VarsStraight(vars: seq<nat>, t: nat, env: Numbers)
    ensures Straight(GenVars(vars, t, env).code)
    decreases vars
  {
    if vars != [] {
      VarsStraight(vars[1..], t + 1, env.(vars := env.vars[vars[0] := Local(t + 1)]));
    }
  }

  // Every branch of a command goes to a label the command itself took.
  lemma {:induction false} CmdTargets(c: Cmd, k: Counters, env: Numbers)
    requires GenCmd(c, k, env).Some?
    ensures var g := GenCmd(c, k, env).value; TargetsIn(g.code, k.labels, g.k.labels, {})
    decreases c
  {
    hide GenCond, GenExp, GenVars, LabelCode;
    var hi := GenCmd(c, k, env).value.k.labels;
    match c
    case While(cond, body) =>
      var lWhile, lBreak := k.labels + 1, k.labels + 2;
      CondTargets(cond, lWhile, lBreak, k.(labels := lBreak), env);
      var g1 := GenCond(cond, lWhile, lBreak, k.(labels := lBreak), env).value;
      CmdTargets(body, g1.k, env);
      var b := GenCmd(body, g1.k, env).value;
      CondTargets(cond, lWhile, lBreak, b.k, b.env);
      Widen(g1.code, lBreak, g1.k.labels, {lWhile, lBreak}, k.labels, hi);
      Widen(b.code, g1.k.labels, b.k.labels, {}, k.labels, hi);
      Widen(GenCond(cond, lWhile, lBreak, b.k, b.env).value.code, b.k.labels, hi, {lWhile, lBreak}, k.labels, hi);
      LabelTargets(lWhile, k.labels, hi);
      LabelTargets(lBreak, k.labels, hi);
      hide TargetIn;
    case If(cond, body) =>
      var lf, lt := k.labels + 1, k.labels + 2;
      CondTargets(cond, lt, lf, k.(labels := lt), env);
      var g := GenCond(cond, lt, lf, k.(labels := lt), env).value;
      CmdTargets(body, g.k, env);
      Widen(g.code, lt, g.k.labels, {lt, lf}, k.labels, hi);
      Widen(GenCmd(body, g.k, env).value.code, g.k.labels, hi, {}, k.labels, hi);
      LabelTargets(lt, k.labels, hi);
      LabelTargets(lf, k.labels, hi);
      hide TargetIn;
    case IfElse(_, _, _) => IfElseTargets(c, k, env);
    case Assign(d, e) => ExpStraight(e, k.temps, env);
    case Return(e) => ExpStraight(e, k.temps, env);
    case Block(vars, cmds) =>
      VarsStraight(vars, k.temps, env);
      CmdsTargets(cmds, k.(temps := k.temps + |vars|), GenVars(vars, k.temps, env).env);
  }

  lemma {:induction false} IfElseTargets(c: Cmd, k: Counters, env: Numbers)
    requires c.IfElse? && GenCmd(c, k, env).Some?
    ensures var g := GenCmd(c, k, env).value; TargetsIn(g.code, k.labels, g.k.labels, {})
    decreases c, 0
  {
    hide GenCond, TargetIn, LabelCode;
    var hi := GenCmd(c, k, env).value.k.labels;
    var lt, lf, lAfterElse := k.labels + 1, k.labels + 2, k.labels + 3;
    CondTargets(c.c, lt, lf, k.(labels := lAfterElse), env);
    var g := GenCond(c.c, lt, lf, k.(labels := lAfterElse), env).value;
    CmdTargets(c.c1, g.k, env);
    var b1 := GenCmd(c.c1, g.k, env).value;
    CmdTargets(c.c2, b1.k, b1.env);
    Widen(g.code, lAfterElse, g.k.labels, {lt, lf}, k.labels, hi);
    Widen(b1.code, g.k.labels, b1.k.labels, {}, k.labels, hi);
    Widen(GenCmd(c.c2, b1.k, b1.env).value.code, b1.k.labels, hi, {}, k.labels, hi);
    LabelTargets(lt, k.labels, hi);
    LabelTargets(lf, k.labels, hi);
    LabelTargets(lAfterElse, k.labels, hi);
  }

  lemma {:induction false} CmdsTargets(cs: Cmds, k: Counters, env: Numbers)
    requires GenCmds(cs, k, env).Some?
    ensures var g := GenCmds(cs, k, env).value; TargetsIn(g.code, k.labels, g.k.labels, {})
    decreases cs
  {
    if cs.Then? {
      CmdTargets(cs.first, k, env);
      var g1 := GenCmd(cs.first, k, env).value;
      CmdsTargets(cs.rest, g1.k, g1.env);
    }
  }

  // The text of a command is well formed on its own: no label twice, no branch without its
  // label, no temporary assigned in two places, and nothing reused from before.
  lemma TextWellFormed(c: Cmd, k: Counters, env: Numbers)
    requires GenCmd(c, k, env).Some?
    ensures
      var g := GenCmd(c, k, env).value;
      && (forall l: nat :: LabelCount(g.code, l) == if k.labels < l <= g.k.labels then 1 else 0)
      && (forall i, l: nat :: i in g.code && BranchesTo(i, l) ==> LabelCount(g.code, l) == 1)
      && (forall t: nat :: TempCount(g.code, t) <= if k.temps < t <= g.k.temps then 1 else 0)
  {
    hide GenCmd, LabelCount, TempCount;
    var g := GenCmd(c, k, env).value;
    forall x: nat
      ensures LabelCount(g.code, x) == if k.labels < x <= g.k.labels then 1 else 0
      ensures TempCount(g.code, x) <= if k.temps < x <= g.k.temps then 1 else 0
    {
      CmdText(c, k, env, x);
    }
    CmdTargets(c, k, env);
    assert forall i :: i in g.code ==> TargetIn(i, k.labels, g.k.labels, {});
  }
}
