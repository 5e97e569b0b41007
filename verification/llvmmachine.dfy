/**
 A machine for the LLVM instructions used. Running into a label without a branch, using a
 temporary or a cell without a value, an undefined division, and running off the end fault.
 */
module LlvmMachine {
  import opened Base
  import opened Word32
  import opened Iteration
  import opened Monga
  import opened LlvmCode

  // The cells of the variables; a cell without a value is absent.
  datatype Machine = Machine(pc: nat, temps: map<nat, Word>, cells: map<Slot, Word>)

  type Progressing = Progress<Machine, Word>

  // The first place where the label is defined.
  function Find(code: seq<Instr>, l: nat): (r: Option<nat>)
    ensures r.Some? ==> r.value < |code| && code[r.value] == Label(l)
    ensures r.None? ==> forall i :: 0 <= i < |code| ==> code[i] != Label(l)
  {
    if code == [] then None
    else if code[0] == Label(l) then Some(0)
    else
      var r := Find(code[1..], l);
      if r.None? then None else Some(r.value + 1)
  }

  function Jump(code: seq<Instr>, m: Machine, l: nat): Progressing {
    match Find(code, l)
    case Some(j) => Running(m.(pc := j + 1))
    case None => Fault
  }

  function Define(m: Machine, t: nat, v: Word): Progressing {
    Running(m.(pc := m.pc + 1, temps := m.temps[t := v]))
  }

  function Step(code: seq<Instr>, m: Machine): Progressing {
    if m.pc >= |code| then Fault
    else
      match code[m.pc]
      case Label(_) => Fault
      case Br(l) => Jump(code, m, l)
      case CondBr(t, yes, no) =>
        if t !in m.temps then Fault else Jump(code, m, if m.temps[t] != 0 then yes else no)
      case Icmp(t, op, a, b) =>
        if a !in m.temps || b !in m.temps then Fault
        else Define(m, t, if Compares(op, m.temps[a], m.temps[b]) then 1 else 0)
      case IcmpZero(t, a) => if a !in m.temps then Fault else Define(m, t, if m.temps[a] == 0 then 1 else 0)
      case Binary(t, op, a, b) =>
        if a !in m.temps || b !in m.temps then Fault
        else
          (match Apply(op, m.temps[a], m.temps[b])
           case Some(v) => Define(m, t, v)
           case None => Fault)
      case MulMinusOne(t, a) => if a !in m.temps then Fault else Define(m, t, Wrap(m.temps[a] * Wrap(-1)))
      case AddZero(t, n) => Define(m, t, Wrap(0 + n as int))
      case Load(t, slot) => if slot !in m.cells then Fault else Define(m, t, m.cells[slot])
      case StoreTo(slot, a) =>
        if a !in m.temps then Fault else Running(m.(pc := m.pc + 1, cells := m.cells[slot := m.temps[a]]))
      case Alloca(t) => Running(m.(pc := m.pc + 1, cells := m.cells - {Local(t)}))
      case Ret(a) => if a !in m.temps then Fault else Stopped(m, m.temps[a])
  }

  function Stepper(code: seq<Instr>): Machine -> Progressing {
    m => Step(code, m)
  }

  function Run(code: seq<Instr>, m: Machine, n: nat): Progressing {
    Iterate(Stepper(code), m, n)
  }

  lemma Stay(code: seq<Instr>, m: Machine)
    ensures Run(code, m, 0) == Running(m)
  {
  }

  lemma OneStep(code: seq<Instr>, m: Machine)
    ensures Run(code, m, 1) == Step(code, m)
  {
    var p := Stepper(code)(m);
    assert p == Step(code, m);
    if p.Running? {
      assert Iterate(Stepper(code), p.now, 0) == Running(p.now);
    }
  }

  // One run after another.
  lemma Chain(code: seq<Instr>, m: Machine, a: nat, m': Machine, b: nat)
    requires Run(code, m, a) == Running(m')
    ensures Run(code, m, a + b) == Run(code, m', b)
  {
    IterateAppend(Stepper(code), m, a, b);
  }

  lemma Last(code: seq<Instr>, m: Machine, a: nat, m': Machine)
    requires Run(code, m, a) == Running(m')
    ensures Run(code, m, a + 1) == Step(code, m')
  {
    Chain(code, m, a, m', 1);
    OneStep(code, m');
  }

  // The machine goes to the next instruction, or to just after a label the instruction branches to.
  lemma GoesOnOrBranches(code: seq<Instr>, m: Machine)
    requires m.pc < |code| && Step(code, m).Running?
    ensures
      var pc' := Step(code, m).now.pc;
      if exists l: nat :: BranchesTo(code[m.pc], l) then
        exists l: nat :: BranchesTo(code[m.pc], l) && pc' > 0 && Find(code, l) == Some(pc' - 1)
      else pc' == m.pc + 1
  {
    match code[m.pc]
    case Br(l) => assert BranchesTo(code[m.pc], l);
    case CondBr(t, yes, no) =>
      assert BranchesTo(code[m.pc], yes) && BranchesTo(code[m.pc], no);
      assert Step(code, m) == Jump(code, m, if m.temps[t] != 0 then yes else no);
    case _ =>
  }

  // ----- code at a place -----

  lemma AtHead(code: seq<Instr>, at: nat, a: seq<Instr>)
    requires At(code, at, a) && a != []
    ensures at < |code| && code[at] == a[0]
  {
    assert code[at..at + |a|][0] == code[at];
  }

  // ----- labels -----

  // No label is defined in two places.
  ghost predicate LabelsOnce(code: seq<Instr>) {
    forall l: nat :: LabelCount(code, l) <= 1
  }

  // The place a branch to `l` leads to.
  ghost predicate Lands(code: seq<Instr>, l: nat, pc: nat) {
    Find(code, l) == Some(pc - 1)
  }

  lemma {:induction false} CountPositive(code: seq<Instr>, i: nat)
    requires i < |code| && code[i].Label?
    ensures LabelCount(code, code[i].l) > 0
    decreases |code|
  {
    if i > 0 {
      CountPositive(code[1..], i - 1);
    }
  }

  // With every label defined once a branch finds the label wherever it stands.
  lemma {:induction false} FindOnly(code: seq<Instr>, l: nat, i: nat)
    requires i < |code| && code[i] == Label(l) && LabelCount(code, l) <= 1
    ensures Find(code, l) == Some(i)
    decreases |code|
  {
    if i > 0 {
      CountPositive(code[1..], i - 1);
      FindOnly(code[1..], l, i - 1);
    }
  }

  lemma LabelAt(code: seq<Instr>, at: nat, l: nat)
    requires LabelsOnce(code) && At(code, at, LabelCode(l))
    ensures Lands(code, l, at + 2)
    ensures at < |code| && code[at] == Br(l)
  {
    hide LabelCount, Find;
    assert LabelCode(l) == [Br(l)] + [Label(l)];
    AtAppend(code, at, [Br(l)], [Label(l)]);
    AtHead(code, at, [Br(l)]);
    AtHead(code, at + 1, [Label(l)]);
    FindOnly(code, l, at + 1);
  }
}
