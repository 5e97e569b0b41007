/**
 Compiler correctness: running the emitted bytes on the machine simulates the SB program,
 halts exactly when the program does, and returns to the caller with the frame restored.
 */
module SbCorrect {
  import opened Base
  import opened Iteration
  import opened Word32
  import opened Ia32
  import opened SbLang
  import opened SbCode

  // ----- the frame -----

  // The address of a variable, relative to the frame pointer.
  function Slot(ebp: int, o: Operand): int
    requires ProperVar(o)
  {
    if o.kind == 'p' then ebp + 8 + 4 * o.n as int else ebp - 4 - 4 * o.n as int
  }

  predicate InFrame(ebp: int, a: int) {
    ebp - 40 <= a <= ebp - 4 || ebp + 8 <= a <= ebp + 24
  }

  // A machine whose frame pointer addresses ten locals and five parameters without wrap-around.
  ghost predicate FrameReady(f: Machine) {
    && f.regs[EBP] % 4 == 0
    && 40 <= f.regs[EBP] && f.regs[EBP] + 28 <= MODULUS
    && forall o: Operand :: ProperVar(o) ==> Slot(f.regs[EBP], o) in f.mem
  }

  // `m` differs from the machine `f` at the start of the body only in %ecx, %edx, the flag,
  // the program counter and the variables' slots, which hold the state `s`.
  ghost predicate Rel(f: Machine, m: Machine, s: State) {
    && s.Valid()
    && m.regs == f.regs[ECX := m.regs[ECX]][EDX := m.regs[EDX]]
    && m.mem.Keys == f.mem.Keys
    && (forall o: Operand :: ProperVar(o) ==>
          Slot(f.regs[EBP], o) in m.mem && m.mem[Slot(f.regs[EBP], o)] == SbLang.Value(s, o))
    && (forall a :: a in f.mem && !InFrame(f.regs[EBP], a) ==> m.mem[a] == f.mem[a])
  }

  // The displacement byte of a proper variable is sign-extended to its slot.
  lemma DispIsSlot(f: Machine, o: Operand)
    requires FrameReady(f) && ProperVar(o)
    ensures Address(f, Mem(EBP, Signed8(Disp(o)))) == Slot(f.regs[EBP], o)
    ensures Slot(f.regs[EBP], o) % 4 == 0 && InFrame(f.regs[EBP], Slot(f.regs[EBP], o))
  {
    if o.kind == 'p' {
      assert Disp(o) == 8 + 4 * o.n as int;
    } else {
      assert Disp(o) == 252 - 4 * o.n as int;
    }
  }

  lemma SlotsDistinct(ebp: int, o: Operand, o': Operand)
    requires ProperVar(o) && ProperVar(o') && Slot(ebp, o) == Slot(ebp, o')
    ensures o == o'
  {
  }

  // ----- one instruction at a time -----

  function Named(r: nat): char {
    if r == ECX then 'c' else 'd'
  }

  lemma LoadVar(code: seq<Byte>, f: Machine, m: Machine, s: State, o: Operand, r: nat)
    requires FrameReady(f) && Rel(f, m, s) && ProperVar(o) && (r == ECX || r == EDX)
    requires At(code, m.pc, MovlMemToReg(o, Named(r)))
    ensures Step(code, m) == Running(m.(regs := m.regs[r := SbLang.Value(s, o)], pc := m.pc + 3))
  {
    var bytes := MovlMemToReg(o, Named(r));
    assert Decode(bytes) == Some((Mov(Reg(r), Mem(EBP, Signed8(Disp(o)))), 3));
    StepAt(code, m, bytes);
    DispIsSlot(f, o);
  }

  lemma LoadConst(code: seq<Byte>, m: Machine, n: Int32, r: nat)
    requires r == ECX || r == EDX
    requires At(code, m.pc, MovlMemToReg(Operand('$', n), Named(r)))
    ensures Step(code, m) == Running(m.(regs := m.regs[r := Wrap(n)], pc := m.pc + 5))
  {
    var bytes := MovlMemToReg(Operand('$', n), Named(r));
    BytesRoundTrip(Wrap(n));
    assert bytes[1..5] == ToBytes(Wrap(n));
    assert Decode(bytes) == Some((MovImm(r, Wrap(n)), 5));
    StepAt(code, m, bytes);
  }

  lemma Load(code: seq<Byte>, f: Machine, m: Machine, s: State, o: Operand, r: nat)
      returns (m': Machine)
    requires FrameReady(f) && Rel(f, m, s) && Proper(o) && (r == ECX || r == EDX)
    requires At(code, m.pc, MovlMemToReg(o, Named(r)))
    ensures Step(code, m) == Running(m') && Rel(f, m', s)
    ensures m'.pc == m.pc + |MovlMemToReg(o, Named(r))|
    ensures m'.regs[r] == SbLang.Value(s, o)
    ensures m'.regs[ECX + EDX - r] == m.regs[ECX + EDX - r]
  {
    m' := m.(regs := m.regs[r := SbLang.Value(s, o)], pc := m.pc + |MovlMemToReg(o, Named(r))|);
    if o.kind == '$' {
      LoadConst(code, m, o.n, r);
    } else {
      LoadVar(code, f, m, s, o, r);
    }
  }

  // `op %ecx, %edx` leaves in %edx the value of the source-level operation.
  lemma Operate(code: seq<Byte>, m: Machine, op: char) returns (m': Machine)
    requires ProperOp(op) && At(code, m.pc, OpBytes(op))
    ensures Step(code, m) == Running(m')
    ensures m' == m.(pc := m.pc + |OpBytes(op)|, zf := m'.zf,
                     regs := m.regs[EDX := Apply(op, m.regs[EDX], m.regs[ECX])])
  {
    StepAt(code, m, OpBytes(op));
    if op == '+' {
      assert Decode(OpBytes(op)) == Some((Add(Reg(EDX), Reg(ECX)), 2));
    } else if op == '-' {
      assert Decode(OpBytes(op)) == Some((Sub(Reg(EDX), Reg(ECX)), 2));
    } else {
      assert Decode(OpBytes(op)) == Some((Imul(EDX, Reg(ECX)), 3));
    }
    m' := Step(code, m).now;
  }

  lemma Save(code: seq<Byte>, f: Machine, m: Machine, s: State, dst: Operand) returns (m': Machine)
    requires FrameReady(f) && Rel(f, m, s) && ProperVar(dst)
    requires At(code, m.pc, MovlFromReg(dst))
    ensures Step(code, m) == Running(m') && m'.pc == m.pc + 3
    ensures Rel(f, m', SbLang.Store(s, dst, m.regs[EDX]))
  {
    var bytes := MovlFromReg(dst);
    assert Decode(bytes) == Some((Mov(Mem(EBP, Signed8(Disp(dst))), Reg(EDX)), 3));
    StepAt(code, m, bytes);
    DispIsSlot(f, dst);
    var ebp := f.regs[EBP];
    assert Slot(ebp, dst) in m.mem;
    m' := m.(mem := m.mem[Slot(ebp, dst) := m.regs[EDX]], pc := m.pc + 3);
    forall o: Operand | ProperVar(o)
      ensures m'.mem[Slot(ebp, o)] == SbLang.Value(SbLang.Store(s, dst, m.regs[EDX]), o)
    {
      if Slot(ebp, o) == Slot(ebp, dst) {
        SlotsDistinct(ebp, o, dst);
      }
    }
  }

  lemma TestZero(code: seq<Byte>, f: Machine, m: Machine, s: State, cond: Operand)
    requires FrameReady(f) && Rel(f, m, s) && ProperVar(cond)
    requires At(code, m.pc, [0x83, 0x7d, Disp(cond), 0x00])
    ensures Step(code, m) == Running(m.(zf := SbLang.Value(s, cond) == 0, pc := m.pc + 4))
  {
    var cmp: Bytes := [0x83, 0x7d, Disp(cond), 0x00];
    assert Decode(cmp) == Some((CmpImm(Mem(EBP, Signed8(Disp(cond))), 0), 4));
    StepAt(code, m, cmp);
    DispIsSlot(f, cond);
  }

  lemma JumpIfZero(code: seq<Byte>, m: Machine, je: Bytes)
    requires |je| == 4 && At(code, m.pc, [0x0f, 0x84] + je)
    ensures Step(code, m) ==
            Running(m.(pc := m.pc + 6 + if m.zf then Signed32(FromBytes(je)) else 0))
  {
    var jump: Bytes := [0x0f, 0x84] + je;
    assert jump[2..6] == je;
    assert Decode(jump) == Some((Je(Signed32(FromBytes(je))), 6));
    StepAt(code, m, jump);
  }

  // cmpl and je together: past the displacement when the variable is zero, else straight on.
  lemma Compare(code: seq<Byte>, f: Machine, m: Machine, s: State, cond: Operand, je: Bytes)
      returns (m': Machine)
    requires FrameReady(f) && Rel(f, m, s) && ProperVar(cond) && |je| == 4
    requires At(code, m.pc, WhileBytes(cond, je))
    ensures Run(code, m, 2) == Running(m') && Rel(f, m', s)
    ensures m'.pc == m.pc + 10 + if SbLang.Value(s, cond) == 0 then Signed32(FromBytes(je)) else 0
  {
    hide Step, Iterate, FromBytes, Signed32;
    AtAppend(code, m.pc, [0x83, 0x7d, Disp(cond), 0x00], [0x0f, 0x84] + je);
    TestZero(code, f, m, s, cond);
    var m1 := m.(zf := SbLang.Value(s, cond) == 0, pc := m.pc + 4);
    JumpIfZero(code, m1, je);
    m' := m1.(pc := m1.pc + 6 + if m1.zf then Signed32(FromBytes(je)) else 0);
    Then(code, m1, m', 0);
    Stay(code, m');
    Then(code, m, m1, 1);
  }

  lemma WhileSize(cond: Operand, je: Bytes)
    ensures |WhileBytes(cond, je)| == 6 + |je|
  {
  }

  lemma JumpBack(code: seq<Byte>, m: Machine, rel: int)
    requires -0x8000_0000 <= rel < 0x8000_0000 && At(code, m.pc, JmpBytes(rel))
    ensures Step(code, m) == Running(m.(pc := m.pc + 5 + rel))
  {
    var bytes := JmpBytes(rel);
    BytesRoundTrip(Wrap(rel));
    SignedWrap(rel);
    assert bytes[1..5] == ToBytes(Wrap(rel));
    assert Decode(bytes) == Some((Jmp(rel), 5));
    StepAt(code, m, bytes);
  }

  lemma Then(code: seq<Byte>, m: Machine, m1: Machine, n: nat)
    requires Step(code, m) == Running(m1)
    ensures Run(code, m, 1 + n) == Run(code, m1, n)
  {
    assert Stepper(code)(m) == Running(m1);
  }

  lemma Stay(code: seq<Byte>, m: Machine)
    ensures Run(code, m, 0) == Running(m)
  {
  }

  lemma Chain(code: seq<Byte>, m: Machine, a: nat, m1: Machine, b: nat)
    requires Run(code, m, a) == Running(m1)
    ensures Run(code, m, a + b) == Run(code, m1, b)
  {
    IterateAppend(Stepper(code), m, a, b);
  }

  // ----- statements and blocks -----

  lemma Assignment(code: seq<Byte>, f: Machine, m: Machine, s: State, dst: Operand, left: Operand, op: char,
                   right: Operand) returns (m': Machine)
    requires FrameReady(f) && Rel(f, m, s)
    requires ProperVar(dst) && Proper(left) && ProperOp(op) && Proper(right)
    requires At(code, m.pc, AssignBytes(dst, left, op, right))
    ensures Run(code, m, 4) == Running(m')
    ensures m'.pc == m.pc + |AssignBytes(dst, left, op, right)|
    ensures Rel(f, m', SbLang.Store(s, dst, Apply(op, SbLang.Value(s, left), SbLang.Value(s, right))))
  {
    hide Step, MovlMemToReg, OpBytes, Apply, Rel, At;
    var (r1, r2) := if op == '-' then (EDX, ECX) else (ECX, EDX);
    var b1, b2 := MovlMemToReg(left, Named(r1)), MovlMemToReg(right, Named(r2));
    var b3, b4 := OpBytes(op), MovlFromReg(dst);
    AtAppend(code, m.pc, b1, b2 + (b3 + b4));
    AtAppend(code, m.pc + |b1|, b2, b3 + b4);
    AtAppend(code, m.pc + |b1| + |b2|, b3, b4);
    var m1 := Load(code, f, m, s, left, r1);
    var m2 := Load(code, f, m1, s, right, r2);
    var m3 := Operate(code, m2, op);
    ApplySymmetric(op, SbLang.Value(s, left), SbLang.Value(s, right));
    RelScratch(f, m2, m3, s);
    m' := Save(code, f, m3, s, dst);
    Then(code, m3, m', 0);
    Then(code, m2, m3, 1);
    Then(code, m1, m2, 2);
    Then(code, m, m1, 3);
  }

  lemma RelScratch(f: Machine, m: Machine, m': Machine, s: State)
    requires Rel(f, m, s) && m'.mem == m.mem && m'.regs == m.regs[EDX := m'.regs[EDX]]
    ensures Rel(f, m', s)
  {
  }

  lemma ApplySymmetric(op: char, a: Word, b: Word)
    requires op == '+' || op == '*'  || op == '-'
    ensures op != '-' ==> Apply(op, a, b) == Apply(op, b, a)
  {
    if op == '*' {
      assert a as int * b as int == b as int * a as int;
    }
  }

  // Running a block's code either reaches its end in the state the block computes, or, when
  // `fuel` entries of loop bodies do not suffice, keeps running for at least `fuel` steps.
  lemma {:induction false} Simulate(code: seq<Byte>, f: Machine, m: Machine, b: Block, fuel: nat, s: State)
      returns (n: nat, m': Machine)
    requires FrameReady(f) && s.Valid() && Rel(f, m, s) && ProperBlock(b)
    requires At(code, m.pc, Code(b)) && |code| < 0x7fff_ffff
    ensures Run(code, m, n) == Running(m')
    ensures Eval(b, fuel, s).Some? ==> Rel(f, m', Eval(b, fuel, s).value) && m'.pc == m.pc + |Code(b)|
    ensures Eval(b, fuel, s).None? ==> n >= fuel
    decreases fuel, b
  {
    hide Step, Iterate, AssignBytes, LoopBytes, Rel, At, Apply, SbLang.Store, SbLang.Value;
    match b
    case Nil =>
      n, m' := 0, m;
      Stay(code, m);
    case Set(dst, left, op, right, rest) =>
      AtAppend(code, m.pc, AssignBytes(dst, left, op, right), Code(rest));
      var m1 := Assignment(code, f, m, s, dst, left, op, right);
      var s1 := SbLang.Store(s, dst, Apply(op, SbLang.Value(s, left), SbLang.Value(s, right)));
      var k;
      k, m' := Simulate(code, f, m1, rest, fuel, s1);
      n := 4 + k;
      Chain(code, m, 4, m1, k);
    case Loop(cond, body, rest) =>
      n, m' := SimulateLoop(code, f, m, b, fuel, s);
  }

  // The pieces of a loop's code, where they sit, and where its two jumps go.
  lemma LoopParts(code: seq<Byte>, pc: int, b: Block) returns (je: Bytes, back: int)
    requires b.Loop? && At(code, pc, Code(b)) && |code| < 0x7fff_ffff
    ensures |je| == 4 && At(code, pc, WhileBytes(b.cond, je))
    ensures At(code, pc + 10, Code(b.body)) && At(code, pc + 10 + |Code(b.body)|, JmpBytes(back))
    ensures At(code, pc + 10 + Signed32(FromBytes(je)), Code(b.rest))
    ensures 10 + |Code(b.body)| + 5 + back == 0 && -0x8000_0000 <= back < 0x8000_0000
    ensures 10 + Signed32(FromBytes(je)) + |Code(b.rest)| == |Code(b)|
  {
    hide Code, ToBytes, FromBytes, Wrap, Signed32, WhileBytes, JmpBytes, At;
    var body := Code(b.body);
    je, back := ToBytes(Wrap(|body| + 5)), -(|body| + 15);
    var jmp := JmpBytes(back);
    WhileSize(b.cond, je);
    JmpSize(back);
    CodeSize(b);
    AtAppend(code, pc, LoopBytes(b.cond, body), Code(b.rest));
    AtAppend(code, pc, WhileBytes(b.cond, je), body + jmp);
    AtAppend(code, pc + 10, body, jmp);
    RelRoundTrip(|body| + 5);
    AtFits(code, pc + 10, body);
  }

  lemma JmpSize(rel: int)
    ensures |JmpBytes(rel)| == 5
  {
  }

  lemma CodeSize(b: Block)
    requires b.Loop?
    ensures |Code(b)| == 15 + |Code(b.body)| + |Code(b.rest)|
    ensures Code(b) == LoopBytes(b.cond, Code(b.body)) + Code(b.rest)
  {
  }

  lemma AtFits(code: seq<Byte>, pc: int, bytes: Bytes)
    requires At(code, pc, bytes)
    ensures |bytes| <= |code|
  {
  }

  lemma RelRoundTrip(x: int)
    requires -0x8000_0000 <= x < 0x8000_0000
    ensures Signed32(FromBytes(ToBytes(Wrap(x)))) == x
  {
    BytesRoundTrip(Wrap(x));
    SignedWrap(x);
  }

  lemma {:induction false} SimulateLoop(code: seq<Byte>, f: Machine, m: Machine, b: Block, fuel: nat, s: State)
      returns (n: nat, m': Machine)
    requires b.Loop?
    requires FrameReady(f) && s.Valid() && Rel(f, m, s) && ProperBlock(b)
    requires At(code, m.pc, Code(b)) && |code| < 0x7fff_ffff
    ensures Run(code, m, n) == Running(m')
    ensures Eval(b, fuel, s).Some? ==> Rel(f, m', Eval(b, fuel, s).value) && m'.pc == m.pc + |Code(b)|
    ensures Eval(b, fuel, s).None? ==> n >= fuel
    decreases fuel, b, 0
  {
    hide Step, Iterate, Code, WhileBytes, JmpBytes, Rel, At, Apply, SbLang.Store, SbLang.Value;
    var je, back := LoopParts(code, m.pc, b);
    var m1 := Compare(code, f, m, s, b.cond, je);
    if SbLang.Value(s, b.cond) == 0 {
      var k;
      k, m' := Simulate(code, f, m1, b.rest, fuel, s);
      n := 2 + k;
      Chain(code, m, 2, m1, k);
    } else if fuel == 0 {
      n, m' := 2, m1;
    } else {
      var k, m2 := Simulate(code, f, m1, b.body, fuel - 1, s);
      Chain(code, m, 2, m1, k);
      match Eval(b.body, fuel - 1, s)
      case None =>
        n, m' := 2 + k, m2;
      case Some(s2) =>
        JumpBack(code, m2, back);
        var m3 := m2.(pc := m.pc);
        RelScratch(f, m2, m3, s2);
        Then(code, m2, m3, 0);
        Stay(code, m3);
        Chain(code, m, 2 + k, m2, 1);
        var k';
        k', m' := SimulateLoop(code, f, m3, b, fuel - 1, s2);
        n := 2 + k + 1 + k';
        Chain(code, m, 2 + k + 1, m3, k');
    }
  }

  // ----- the whole function -----

  // A call: the stack holds the return address with the parameters above it, there is room
  // for the saved frame pointer and the locals below, and %esp is doubleword-aligned.
  ghost predicate Called(m: Machine) {
    && m.pc == 0
    && m.regs[ESP] % 4 == 0
    && 48 <= m.regs[ESP] && m.regs[ESP] + 24 <= MODULUS
    && forall a: int :: m.regs[ESP] - 44 <= a <= m.regs[ESP] + 20 && a % 4 == 0 ==> a in m.mem
  }

  // The program's initial state: parameters as passed, locals whatever the stack held.
  function Initial(m: Machine): (s: State)
    requires Called(m)
    ensures s.Valid()
  {
    var esp: int := m.regs[ESP];
    State(seq(LOCALS, i requires 0 <= i < LOCALS => m.mem[esp - 8 - 4 * i]),
          seq(PARAMS, i requires 0 <= i < PARAMS => m.mem[esp + 4 + 4 * i]))
  }

  lemma PushFrame(code: seq<Byte>, m: Machine)
    requires At(code, m.pc, [0x55])
    requires m.regs[ESP] % 4 == 0 && m.regs[ESP] >= 4 && m.regs[ESP] - 4 in m.mem
    ensures Step(code, m) == Running(m.(pc := m.pc + 1, regs := m.regs[ESP := m.regs[ESP] - 4],
                                        mem := m.mem[m.regs[ESP] - 4 := m.regs[EBP]]))
  {
    assert Decode([0x55]) == Some((Push(EBP), 1));
    StepAt(code, m, [0x55]);
  }

  lemma SetFrame(code: seq<Byte>, m: Machine)
    requires At(code, m.pc, [0x89, 0xe5])
    ensures Step(code, m) == Running(m.(regs := m.regs[EBP := m.regs[ESP]], pc := m.pc + 2))
  {
    assert Decode([0x89, 0xe5]) == Some((Mov(Reg(EBP), Reg(ESP)), 2));
    StepAt(code, m, [0x89, 0xe5]);
  }

  lemma Reserve(code: seq<Byte>, m: Machine)
    requires At(code, m.pc, [0x83, 0xec, 0x28]) && m.regs[ESP] >= 40
    ensures Step(code, m) == Running(m.(regs := m.regs[ESP := m.regs[ESP] - 40],
                                        zf := m.regs[ESP] == 40, pc := m.pc + 3))
  {
    assert Decode([0x83, 0xec, 0x28]) == Some((SubImm(Reg(ESP), 40), 3));
    StepAt(code, m, [0x83, 0xec, 0x28]);
  }

  lemma Prologue(code: seq<Byte>, m: Machine) returns (f: Machine)
    requires Called(m) && At(code, 0, PROLOGO)
    ensures Run(code, m, 3) == Running(f)
    ensures f.pc == 6 && FrameReady(f) && Rel(f, f, Initial(m))
    ensures var esp: int := m.regs[ESP];
            && f.regs == m.regs[EBP := esp - 4][ESP := esp - 44]
            && f.mem == m.mem[esp - 4 := m.regs[EBP]]
  {
    hide Step, Iterate, Decode;
    var esp: int := m.regs[ESP];
    var push: Bytes, mov: Bytes, sub: Bytes := [0x55], [0x89, 0xe5], [0x83, 0xec, 0x28];
    assert PROLOGO == push + (mov + sub);
    AtAppend(code, 0, push, mov + sub);
    AtAppend(code, 1, mov, sub);
    var m1 := m.(regs := m.regs[ESP := esp - 4], mem := m.mem[esp - 4 := m.regs[EBP]], pc := 1);
    PushFrame(code, m);
    var m2 := m1.(regs := m1.regs[EBP := esp - 4], pc := 3);
    SetFrame(code, m1);
    f := m2.(regs := m2.regs[ESP := esp - 44], zf := esp == 44, pc := 6);
    Reserve(code, m2);
    Stay(code, f);
    Then(code, m2, f, 0);
    Then(code, m1, m2, 1);
    Then(code, m, m1, 2);
    forall o: Operand | ProperVar(o)
      ensures Slot(esp - 4, o) in f.mem && f.mem[Slot(esp - 4, o)] == SbLang.Value(Initial(m), o)
    {
      assert Slot(esp - 4, o) % 4 == 0;
    }
  }

  // Where a call that computed `s` must leave the caller.
  ghost predicate ReturnsTo(m: Machine, s: State, last: Machine, target: Word) {
    && Called(m) && s.Valid()
    && var esp: int := m.regs[ESP];
    && target == m.mem[esp]
    && last.regs == m.regs[ESP := esp + 4][0 := s.v[0]][ECX := last.regs[ECX]][EDX := last.regs[EDX]]
    && last.mem.Keys == m.mem.Keys
    && (forall i :: 0 <= i < LOCALS ==> last.mem[esp - 8 - 4 * i] == s.v[i])
    && (forall i :: 0 <= i < PARAMS ==> last.mem[esp + 4 + 4 * i] == s.p[i])
    && (forall a: int :: a in m.mem && !(esp - 44 <= a <= esp - 4) && !(esp + 4 <= a <= esp + 20) ==>
          last.mem[a] == m.mem[a])
  }

  lemma Epilogue(code: seq<Byte>, m0: Machine, f: Machine, m: Machine, s: State)
    requires Called(m0) && FrameReady(f) && Rel(f, m, s) && At(code, m.pc, FINALIZACAO)
    requires var esp: int := m0.regs[ESP];
             && f.regs == m0.regs[EBP := esp - 4][ESP := esp - 44]
             && f.mem == m0.mem[esp - 4 := m0.regs[EBP]]
    ensures Run(code, m, 4).Stopped?
    ensures ReturnsTo(m0, s, Run(code, m, 4).last, Run(code, m, 4).exit)
  {
    hide Step, Iterate, ReturnsTo, Decode, At;
    var esp: int := m0.regs[ESP];
    var v0 := Operand('v', 0);
    DispIsSlot(f, v0);
    assert Slot(esp - 4, v0) == esp - 8 && m.mem[esp - 8] == s.v[0];
    Leave(code, m);
    ReturnState(m0, f, m, s, Run(code, m, 4).last);
  }

  // Loads the result, drops the frame, restores the frame pointer and returns.
  lemma Leave(code: seq<Byte>, m: Machine)
    requires At(code, m.pc, FINALIZACAO)
    requires var ebp: int := m.regs[EBP];
      ebp % 4 == 0 && ebp - 4 in m.mem && ebp in m.mem && ebp + 4 in m.mem && ebp + 8 < MODULUS
    ensures var ebp: int := m.regs[EBP];
      Run(code, m, 4) ==
        Stopped(m.(pc := m.pc + 6, regs := m.regs[0 := m.mem[ebp - 4]][ESP := ebp + 8][EBP := m.mem[ebp]]),
                m.mem[ebp + 4])
  {
    hide Step, Iterate, Decode, At;
    var ebp: int := m.regs[EBP];
    var mov: Bytes, lift: Bytes, pop: Bytes, ret: Bytes := [0x8b, 0x45, 0xfc], [0x89, 0xec], [0x5d], [0xc3];
    assert FINALIZACAO == mov + (lift + (pop + ret));
    AtAppend(code, m.pc, mov, lift + (pop + ret));
    AtAppend(code, m.pc + 3, lift, pop + ret);
    AtAppend(code, m.pc + 5, pop, ret);
    LoadResult(code, m);
    var m1 := m.(regs := m.regs[0 := m.mem[ebp - 4]], pc := m.pc + 3);
    Lift(code, m1);
    var m2 := m1.(regs := m1.regs[ESP := ebp], pc := m.pc + 5);
    PopFrame(code, m2);
    var m3 := m2.(regs := m2.regs[ESP := ebp + 4][EBP := m.mem[ebp]], pc := m.pc + 6);
    Return(code, m3);
    var last := m3.(regs := m3.regs[ESP := ebp + 8]);
    StoppedAfter(code, m3, last, m.mem[ebp + 4]);
    Then(code, m2, m3, 1);
    Then(code, m1, m2, 2);
    Then(code, m, m1, 3);
    assert last.regs == m.regs[0 := m.mem[ebp - 4]][ESP := ebp + 8][EBP := m.mem[ebp]];
  }

  lemma LoadResult(code: seq<Byte>, m: Machine)
    requires At(code, m.pc, [0x8b, 0x45, 0xfc])
    requires m.regs[EBP] % 4 == 0 && m.regs[EBP] >= 4 && m.regs[EBP] - 4 in m.mem
    ensures Step(code, m) == Running(m.(regs := m.regs[0 := m.mem[m.regs[EBP] - 4]], pc := m.pc + 3))
  {
    assert Decode([0x8b, 0x45, 0xfc]) == Some((Mov(Reg(0), Mem(EBP, -4)), 3));
    hide Decode;
    StepAt(code, m, [0x8b, 0x45, 0xfc]);
  }

  lemma Lift(code: seq<Byte>, m: Machine)
    requires At(code, m.pc, [0x89, 0xec])
    ensures Step(code, m) == Running(m.(regs := m.regs[ESP := m.regs[EBP]], pc := m.pc + 2))
  {
    assert Decode([0x89, 0xec]) == Some((Mov(Reg(ESP), Reg(EBP)), 2));
    StepAt(code, m, [0x89, 0xec]);
  }

  lemma PopFrame(code: seq<Byte>, m: Machine)
    requires At(code, m.pc, [0x5d])
    requires m.regs[ESP] % 4 == 0 && m.regs[ESP] in m.mem && m.regs[ESP] + 4 < MODULUS
    ensures Step(code, m) == Running(m.(pc := m.pc + 1,
              regs := m.regs[ESP := m.regs[ESP] + 4][EBP := m.mem[m.regs[ESP]]]))
  {
    assert Decode([0x5d]) == Some((Pop(EBP), 1));
    StepAt(code, m, [0x5d]);
  }

  lemma Return(code: seq<Byte>, m: Machine)
    requires At(code, m.pc, [0xc3])
    requires m.regs[ESP] % 4 == 0 && m.regs[ESP] in m.mem && m.regs[ESP] + 4 < MODULUS
    ensures Step(code, m) == Stopped(m.(regs := m.regs[ESP := m.regs[ESP] + 4]), m.mem[m.regs[ESP]])
  {
    assert Decode([0xc3]) == Some((Ret, 1));
    StepAt(code, m, [0xc3]);
  }

  lemma StoppedAfter(code: seq<Byte>, m: Machine, last: Machine, target: Word)
    requires Step(code, m) == Stopped(last, target)
    ensures Run(code, m, 1) == Stopped(last, target)
  {
    assert Stepper(code)(m) == Stopped(last, target);
  }

  lemma ReturnState(m0: Machine, f: Machine, m: Machine, s: State, last: Machine)
    requires Called(m0) && FrameReady(f) && Rel(f, m, s)
    requires var esp: int := m0.regs[ESP];
             && f.regs == m0.regs[EBP := esp - 4][ESP := esp - 44]
             && f.mem == m0.mem[esp - 4 := m0.regs[EBP]]
             && last.mem == m.mem
             && last.regs == m.regs[0 := s.v[0]][ESP := esp + 4][EBP := m0.regs[EBP]]
    ensures ReturnsTo(m0, s, last, m0.mem[m0.regs[ESP]])
  {
    var esp: int := m0.regs[ESP];
    forall i | 0 <= i < LOCALS
      ensures last.mem[esp - 8 - 4 * i] == s.v[i]
    {
      assert Slot(esp - 4, Operand('v', i)) == esp - 8 - 4 * i;
    }
    forall i | 0 <= i < PARAMS
      ensures last.mem[esp + 4 + 4 * i] == s.p[i]
    {
      assert Slot(esp - 4, Operand('p', i)) == esp + 4 + 4 * i;
    }
  }

  // What one fuel amount says about the emitted function as a whole.
  lemma {:induction false} CallWithFuel(ss: seq<Stmt>, m: Machine, fuel: nat) returns (n: nat)
    requires Geracod(ss).Ok? && ProperBlock(Parse(ss).0) && Called(m)
    requires |Geracod(ss).value| < 0x7fff_ffff
    ensures
      var code, out := Geracod(ss).value, Eval(Parse(ss).0, fuel, Initial(m));
      && (out.None? ==> n >= fuel && Run(code, m, n).Running?)
      && (out.Some? ==>
            && Run(code, m, n).Stopped?
            && ReturnsTo(m, out.value, Run(code, m, n).last, Run(code, m, n).exit))
  {
    hide Step, Iterate, Rel, Eval, ReturnsTo, At, Geracod, Parse, Called, FrameReady, Code, ProperBlock, Initial,
        Flatten;
    var code, b := Geracod(ss).value, Parse(ss).0;
    GeracodIsCode(ss);
    assert code == PROLOGO + (Code(b) + FINALIZACAO);
    AtAppend(code, 0, PROLOGO, Code(b) + FINALIZACAO);
    AtAppend(code, 6, Code(b), FINALIZACAO);
    var f := Prologue(code, m);
    var k, m1 := Simulate(code, f, f, b, fuel, Initial(m));
    Chain(code, m, 3, f, k);
    match Eval(b, fuel, Initial(m))
    case None =>
      n := 3 + k;
    case Some(s) =>
      Epilogue(code, m, f, m1, s);
      n := 3 + k + 4;
      Chain(code, m, 3 + k, m1, 4);
  }

  // The emitted function returns exactly when the program halts, and then %eax is v0, every
  // variable has the program's final value, and the caller's registers, return address and
  // the rest of the stack are as they were. It never faults.
  lemma CompilerCorrect(ss: seq<Stmt>, m: Machine)
    requires Geracod(ss).Ok? && ProperList(ss) && Called(m)
    requires |Geracod(ss).value| < 0x7fff_ffff
    ensures ProperBlock(Parse(ss).0)
    ensures
      var code, b := Geracod(ss).value, Parse(ss).0;
      && (Halts(b, Initial(m)) <==> exists n: nat :: Run(code, m, n).Stopped?)
      && (forall n: nat :: !Run(code, m, n).Fault?)
      && (forall fuel: nat, n: nat :: Eval(b, fuel, Initial(m)).Some? && Run(code, m, n).Stopped? ==>
            ReturnsTo(m, Eval(b, fuel, Initial(m)).value, Run(code, m, n).last, Run(code, m, n).exit))
  {
    hide Step, Iterate, Rel, Eval, ReturnsTo;
    GeracodIsCode(ss);
    ProperFlatten(Parse(ss).0, []);
    var code, b := Geracod(ss).value, Parse(ss).0;
    forall n: nat
      ensures !Run(code, m, n).Fault?
      ensures Run(code, m, n).Stopped? ==> Eval(b, n + 1, Initial(m)).Some?
    {
      var k := CallWithFuel(ss, m, n + 1);
      if !Run(code, m, n).Running? && n <= k {
        IterateStopped(Stepper(code), m, n, k);
      } else if k < n && !Run(code, m, k).Running? {
        IterateStopped(Stepper(code), m, k, n);
      }
    }
    forall fuel: nat | Eval(b, fuel, Initial(m)).Some?
      ensures exists n: nat :: Run(code, m, n).Stopped?
    {
      var k := CallWithFuel(ss, m, fuel);
    }
    forall fuel: nat, n: nat | Eval(b, fuel, Initial(m)).Some? && Run(code, m, n).Stopped?
      ensures ReturnsTo(m, Eval(b, fuel, Initial(m)).value, Run(code, m, n).last, Run(code, m, n).exit)
    {
      var k := CallWithFuel(ss, m, fuel);
      if n <= k {
        IterateStopped(Stepper(code), m, n, k);
      } else {
        IterateStopped(Stepper(code), m, k, n);
      }
    }
  }

  // ----- what the bound test lets through -----

  // The displacement byte keeps an index modulo 64 only: where `vi` lies for any i at all.
  function Landing(ebp: int, i: int): int {
    if i % 64 < 32 then ebp - 4 - 4 * (i % 64) else ebp + 4 * (63 - i % 64)
  }

  lemma DispLands(i: Int32, ebp: int)
    ensures ebp + Signed8(Disp(Operand('v', i))) == Landing(ebp, i)
  {
    var q, j := i as int / 64, i as int % 64;
    assert -4 * (i as int) - 4 == (-q - 1) * 256 + (252 - 4 * j);
    assert Disp(Operand('v', i)) == 252 - 4 * j;
  }

  // Among the words of the frame, from the lowest local to the last parameter: `vi` is itself a
  // local, the caller's frame pointer, the return address or a parameter; or it is beyond them.
  lemma LandsBy(ebp: int, i: int)
    ensures var j := i % 64;
            && (j < 10 ==> Landing(ebp, i) == Slot(ebp, Operand('v', j)))
            && (j == 63 <==> Landing(ebp, i) == ebp)
            && (j == 62 <==> Landing(ebp, i) == ebp + 4)
            && (57 <= j < 62 ==> Landing(ebp, i) == Slot(ebp, Operand('p', 61 - j)))
            && (10 <= j < 32 <==> Landing(ebp, i) < ebp - 40)
            && (32 <= j < 57 <==> Landing(ebp, i) > ebp + 24)
  {
  }

  lemma SaveAnywhere(code: seq<Byte>, m: Machine, i: Int32)
    requires At(code, m.pc, MovlFromReg(Operand('v', i))) && m.regs[EBP] % 4 == 0
    ensures var a := Wrap(Landing(m.regs[EBP], i));
      Step(code, m) == if a in m.mem then Running(m.(mem := m.mem[a := m.regs[EDX]], pc := m.pc + 3)) else Fault
  {
    var o := Operand('v', i);
    var bytes := MovlFromReg(o);
    assert Decode(bytes) == Some((Mov(Mem(EBP, Signed8(Disp(o))), Reg(EDX)), 3));
    StepAt(code, m, bytes);
    DispLands(i, m.regs[EBP]);
    assert Address(m, Mem(EBP, Signed8(Disp(o)))) == Wrap(Landing(m.regs[EBP], i));
  }

  // The upper-bound test admits every negative index. The program `vi = $n + $0` then stores n
  // at the place i has modulo 64, or faults if there is no memory there. What it returns, the
  // frame pointer it hands back and the place it returns to are read after that store, so by
  // LandsBy the caller's frame pointer is lost for i of remainder 63 and the return address for
  // 62. Indices that are not negative are all it takes: see SbCode.AcceptedOperands.
  lemma NegativeIndexLands(n: Int32, i: Int32, m: Machine)
    requires Called(m) && i < 0
    ensures
      var ss := [Assign(Operand('v', i), Operand('$', n), '+', Operand('$', 0))];
      && Geracod(ss).Ok? && !ProperList(ss)
      && var code, esp: int := Geracod(ss).value, m.regs[ESP];
      && var a := Wrap(Landing(esp - 4, i));
      && (a !in m.mem ==> Run(code, m, 7).Fault?)
      && (a in m.mem ==>
            && Run(code, m, 11).Stopped?
            && var last := Run(code, m, 11).last;
            && last.mem == m.mem[esp - 4 := m.regs[EBP]][a := Wrap(n)]
            && last.regs[0] == last.mem[esp - 8] && last.regs[EBP] == last.mem[esp - 4]
            && Run(code, m, 11).exit == last.mem[esp])
  {
    hide Step, Iterate, Decode, MovlMemToReg, MovlFromReg, At, Landing;
    var dst, left, right := Operand('v', i), Operand('$', n), Operand('$', 0);
    var b := Set(dst, left, '+', right, Nil);
    var ss := [Assign(dst, left, '+', right)];
    assert FlattenThen(Nil, []) == [];
    assert Flatten(b) == ss && ss[1..] == [];
    BalancedIffTree(ss);
    GeracodAccepts(ss);
    GeracodIsCode(ss);
    var code, body := Geracod(ss).value, AssignBytes(dst, left, '+', right);
    assert Code(b) == body;
    assert code == PROLOGO + (body + FINALIZACAO);
    AtWhole(code);
    AtAppend(code, 0, PROLOGO, body + FINALIZACAO);
    AtAppend(code, 6, body, FINALIZACAO);
    var f := Prologue(code, m);
    var ebp: int := f.regs[EBP];
    if Wrap(Landing(ebp, i)) in m.mem {
      var m1 := Clobber(code, f, n, i);
      Leave(code, m1);
      Chain(code, f, 4, m1, 4);
      Chain(code, m, 3, f, 8);
    } else {
      ClobberFaults(code, f, n, i);
      Chain(code, m, 3, f, 4);
    }
  }

  lemma AtWhole(code: seq<Byte>)
    ensures At(code, 0, code)
  {
  }

  // The first three instructions of the program above: n is in %edx.
  lemma Summed(code: seq<Byte>, f: Machine, n: Int32, i: Int32) returns (m: Machine)
    requires At(code, f.pc, AssignBytes(Operand('v', i), Operand('$', n), '+', Operand('$', 0)))
    ensures Run(code, f, 3) == Running(m) && m.pc == f.pc + 12 && m.mem == f.mem
    ensures |AssignBytes(Operand('v', i), Operand('$', n), '+', Operand('$', 0))| == 15
    ensures m.regs == f.regs[ECX := m.regs[ECX]][EDX := Wrap(n)]
    ensures At(code, m.pc, MovlFromReg(Operand('v', i)))
  {
    hide Step, Iterate, Decode, At, MovlMemToReg, ToBytes;
    ConstSize(n, 'c');
    ConstSize(0, 'd');
    var left, right := Operand('$', n), Operand('$', 0);
    var b1, b2, b3, b4 := MovlMemToReg(left, 'c'), MovlMemToReg(right, 'd'), OpBytes('+'), MovlFromReg(Operand('v', i));
    AtAppend(code, f.pc, b1, b2 + (b3 + b4));
    AtAppend(code, f.pc + 5, b2, b3 + b4);
    AtAppend(code, f.pc + 10, b3, b4);
    LoadConst(code, f, n, ECX);
    var m1 := f.(regs := f.regs[ECX := Wrap(n)], pc := f.pc + 5);
    LoadConst(code, m1, 0, EDX);
    var m2 := m1.(regs := m1.regs[EDX := 0], pc := f.pc + 10);
    m := Operate(code, m2, '+');
    Then(code, m2, m, 0);
    Stay(code, m);
    Then(code, m1, m2, 1);
    Then(code, f, m1, 2);
  }

  lemma Clobber(code: seq<Byte>, f: Machine, n: Int32, i: Int32) returns (m: Machine)
    requires At(code, f.pc, AssignBytes(Operand('v', i), Operand('$', n), '+', Operand('$', 0)))
    requires f.regs[EBP] % 4 == 0 && Wrap(Landing(f.regs[EBP], i)) in f.mem
    ensures Run(code, f, 4) == Running(m) && m.pc == f.pc + 15
    ensures |AssignBytes(Operand('v', i), Operand('$', n), '+', Operand('$', 0))| == 15
    ensures m.regs == f.regs[ECX := m.regs[ECX]][EDX := m.regs[EDX]]
    ensures m.mem == f.mem[Wrap(Landing(f.regs[EBP], i)) := Wrap(n)]
  {
    hide Step, Iterate, Decode, At, AssignBytes, Landing;
    var m1 := Summed(code, f, n, i);
    SaveAnywhere(code, m1, i);
    m := m1.(mem := m1.mem[Wrap(Landing(f.regs[EBP], i)) := Wrap(n)], pc := f.pc + 15);
    Stay(code, m);
    Then(code, m1, m, 0);
    Chain(code, f, 3, m1, 1);
  }

  lemma ClobberFaults(code: seq<Byte>, f: Machine, n: Int32, i: Int32)
    requires At(code, f.pc, AssignBytes(Operand('v', i), Operand('$', n), '+', Operand('$', 0)))
    requires f.regs[EBP] % 4 == 0 && Wrap(Landing(f.regs[EBP], i)) !in f.mem
    ensures Run(code, f, 4).Fault?
  {
    hide Step, Decode, At, AssignBytes, Landing;
    var m1 := Summed(code, f, n, i);
    SaveAnywhere(code, m1, i);
    assert Stepper(code)(m1) == Fault;
    assert Run(code, m1, 1).Fault?;
    Chain(code, f, 3, m1, 1);
  }

  lemma ConstSize(n: Int32, reg: char)
    ensures |MovlMemToReg(Operand('$', n), reg)| == 5
  {
  }
}
