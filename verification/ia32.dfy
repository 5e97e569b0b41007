/**
 The part of the IA-32 that emitted SB code uses: an instruction decoder over raw bytes
 (ModR/M addressing as in the Intel 64 and IA-32 Architectures Software Developer's Manual,
 Volume 2, sections 2.1.3 to 2.1.5) and a one-instruction step on registers, the zero flag
 and a word-addressed stack.
 */
module Ia32 {
  import opened Base
  import opened Iteration
  import opened Word32

  const ECX := 1
  const EDX := 2
  const ESP := 4
  const EBP := 5

  // A register, or the doubleword at base register plus displacement.
  datatype Place = Reg(r: nat) | Mem(base: nat, disp: int)

  datatype Instr =
    | Push(src: nat)
    | Pop(dst: nat)
    | Mov(to: Place, from: Place)
    | MovImm(dst: nat, imm: Word)
    | Add(to: Place, from: Place)
    | Sub(to: Place, from: Place)
    | SubImm(to: Place, n: int)
    | CmpImm(left: Place, n: int)
    | Imul(dst: nat, from: Place)
    | Je(rel: int)
    | Jmp(rel: int)
    | Ret

  // The r/m operand of a ModR/M byte, and how many displacement bytes follow it. Only the
  // register form and the disp8 form without a SIB byte are decoded.
  function ModRm(bs: seq<Byte>): Option<(Place, nat)> {
    if |bs| == 0 then None
    else if bs[0] / 64 == 3 then Some((Reg(bs[0] % 8), 0))
    else if bs[0] / 64 == 1 && bs[0] % 8 != ESP && |bs| >= 2 then
      Some((Mem(bs[0] % 8, Signed8(bs[1])), 1))
    else None
  }

  function RegField(b: Byte): nat {
    b / 8 % 8
  }

  // The instruction at the start of the bytes, and its length.
  function Decode(bs: seq<Byte>): Option<(Instr, nat)> {
    if |bs| == 0 then None
    else if bs[0] == 0xc3 then Some((Ret, 1))
    else if 0x50 <= bs[0] < 0x58 then Some((Push(bs[0] - 0x50), 1))
    else if 0x58 <= bs[0] < 0x60 then Some((Pop(bs[0] - 0x58), 1))
    else if 0xb8 <= bs[0] < 0xc0 && |bs| >= 5 then
      Some((MovImm(bs[0] - 0xb8, FromBytes(bs[1..5])), 5))
    else if bs[0] == 0xe9 && |bs| >= 5 then
      Some((Jmp(Signed32(FromBytes(bs[1..5]))), 5))
    else if bs[0] == 0x0f && |bs| >= 2 && bs[1] == 0x84 && |bs| >= 6 then
      Some((Je(Signed32(FromBytes(bs[2..6]))), 6))
    else if bs[0] == 0x0f && |bs| >= 2 && bs[1] == 0xaf then
      match ModRm(bs[2..])
      case None => None
      case Some((place, k)) => Some((Imul(RegField(bs[2]), place), 3 + k))
    else
      match ModRm(bs[1..])
      case None => None
      case Some((place, k)) =>
        var reg := RegField(bs[1]);
        if bs[0] == 0x8b then Some((Mov(Reg(reg), place), 2 + k))
        else if bs[0] == 0x89 then Some((Mov(place, Reg(reg)), 2 + k))
        else if bs[0] == 0x01 then Some((Add(place, Reg(reg)), 2 + k))
        else if bs[0] == 0x29 then Some((Sub(place, Reg(reg)), 2 + k))
        else if bs[0] == 0x83 && |bs| >= 3 + k && reg == 5 then
          Some((SubImm(place, Signed8(bs[2 + k])), 3 + k))
        else if bs[0] == 0x83 && |bs| >= 3 + k && reg == 7 then
          Some((CmpImm(place, Signed8(bs[2 + k])), 3 + k))
        else None
  }

  // Bytes after an instruction do not change how it decodes.
  lemma DecodePrefix(bs: seq<Byte>, rest: seq<Byte>)
    requires Decode(bs).Some?
    ensures Decode(bs + rest) == Decode(bs)
  {
    var all := bs + rest;
    assert forall i :: 0 <= i < |bs| ==> all[i] == bs[i];
    if |bs| >= 5 {
      assert all[1..5] == bs[1..5];
    }
    if |bs| >= 6 {
      assert all[2..6] == bs[2..6];
    }
    if |bs| >= 2 {
      assert all[1..] == bs[1..] + rest;
      assert all[2..] == bs[2..] + rest;
    }
  }

  // An instruction is as long as the shortest beginning that decodes, and that beginning
  // already decodes to it; an 8-bit immediate is its last byte.
  lemma DecodeLength(bs: seq<Byte>, k: nat)
    requires Decode(bs).Some?
    requires k < Decode(bs).value.1
    ensures Decode(bs).value.1 <= |bs|
    ensures Decode(bs[..Decode(bs).value.1]) == Decode(bs)
    ensures Decode(bs[..k]).None?
    ensures match Decode(bs).value.0
            case SubImm(_, n) => n == Signed8(bs[Decode(bs).value.1 - 1])
            case CmpImm(_, n) => n == Signed8(bs[Decode(bs).value.1 - 1])
            case _ => true
  {
    var len := Decode(bs).value.1;
    var all, short := bs[..len], bs[..k];
    assert |bs| >= 5 && len >= 5 ==> all[1..5] == bs[1..5];
    assert |bs| >= 6 && len >= 6 ==> all[2..6] == bs[2..6];
  }

  type Regs = r: seq<Word> | |r| == 8 witness seq(8, _ => 0)

  // Offsets into the code stand for %eip; the stack holds whole doublewords, keyed by address.
  datatype Machine = Machine(pc: int, regs: Regs, zf: bool, mem: map<Word, Word>)

  // One step goes on, leaves through `ret` to a return address, or faults.
  type Outcome = Progress<Machine, Word>

  function Address(m: Machine, place: Place): Word
    requires place.Mem? && place.base < 8
  {
    Wrap(m.regs[place.base] as int + place.disp)
  }

  function Read(m: Machine, place: Place): Option<Word>
  {
    match place
    case Reg(r) => if r < 8 then Some(m.regs[r]) else None
    case Mem(base, disp) =>
      if base < 8 then
        var a := Address(m, place);
        if a % 4 == 0 && a in m.mem then Some(m.mem[a]) else None
      else None
  }

  function Write(m: Machine, place: Place, w: Word): Option<Machine>
  {
    match place
    case Reg(r) => if r < 8 then Some(m.(regs := m.regs[r := w])) else None
    case Mem(base, disp) =>
      if base < 8 then
        var a := Address(m, place);
        if a % 4 == 0 && a in m.mem then Some(m.(mem := m.mem[a := w])) else None
      else None
  }

  // Write `w` to `place`, set the zero flag to `zf` and fall through to `pc`.
  function Finish(m: Machine, place: Place, w: Word, zf: bool, pc: int): Outcome
  {
    match Write(m, place, w)
    case None => Fault
    case Some(m') => Running(m'.(zf := zf, pc := pc))
  }

  // The effect of one decoded instruction of the given length. `imul` leaves the zero flag
  // undefined; here it keeps its value, and no claim rests on it.
  function Execute(i: Instr, len: nat, m: Machine): Outcome
  {
    var next := m.pc + len;
    match i
    case Push(src) =>
      var sp := Wrap(m.regs[ESP] as int - 4);
      if src < 8 && sp % 4 == 0 && sp in m.mem then
        Running(m.(regs := m.regs[ESP := sp], mem := m.mem[sp := m.regs[src]], pc := next))
      else Fault
    case Pop(dst) =>
      var sp: int := m.regs[ESP];
      if dst < 8 && sp % 4 == 0 && sp in m.mem then
        Running(m.(regs := m.regs[ESP := Wrap(sp + 4)][dst := m.mem[sp]], pc := next))
      else Fault
    case Mov(to, from) =>
      (match Read(m, from)
       case None => Fault
       case Some(w) => Finish(m, to, w, m.zf, next))
    case MovImm(dst, imm) => Finish(m, Reg(dst), imm, m.zf, next)
    case Add(to, from) =>
      (match (Read(m, to), Read(m, from))
       case (Some(a), Some(b)) => Finish(m, to, Wrap(a as int + b), Wrap(a as int + b) == 0, next)
       case _ => Fault)
    case Sub(to, from) =>
      (match (Read(m, to), Read(m, from))
       case (Some(a), Some(b)) => Finish(m, to, Wrap(a as int - b), Wrap(a as int - b) == 0, next)
       case _ => Fault)
    case SubImm(to, n) =>
      (match Read(m, to)
       case None => Fault
       case Some(a) => Finish(m, to, Wrap(a as int - n), Wrap(a as int - n) == 0, next))
    case CmpImm(left, n) =>
      (match Read(m, left)
       case None => Fault
       case Some(a) => Running(m.(zf := Wrap(a as int - n) == 0, pc := next)))
    case Imul(dst, from) =>
      (match (Read(m, Reg(dst)), Read(m, from))
       case (Some(a), Some(b)) => Finish(m, Reg(dst), Wrap(a as int * b), m.zf, next)
       case _ => Fault)
    case Je(rel) => Running(m.(pc := if m.zf then next + rel else next))
    case Jmp(rel) => Running(m.(pc := next + rel))
    case Ret =>
      var sp: int := m.regs[ESP];
      if sp % 4 == 0 && sp in m.mem then
        Stopped(m.(regs := m.regs[ESP := Wrap(sp + 4)]), m.mem[sp])
      else Fault
  }

  // What the zero flag says after an instruction that sets it: the two sides of a comparison or
  // a subtraction were equal, or those of an addition were opposite.
  lemma ZeroFlag(i: Instr, len: nat, m: Machine)
    requires Execute(i, len, m).Running?
    ensures match i
            case CmpImm(left, n) => Execute(i, len, m).now.zf <==> Read(m, left).value == Wrap(n)
            case SubImm(to, n) => Execute(i, len, m).now.zf <==> Read(m, to).value == Wrap(n)
            case Sub(to, from) => Execute(i, len, m).now.zf <==> Read(m, to).value == Read(m, from).value
            case Add(to, from) =>
              Execute(i, len, m).now.zf <==> Read(m, to).value == Wrap(-(Read(m, from).value as int))
            case Je(_) => Execute(i, len, m).now.zf == m.zf
            case _ => true
  {
  }

  // Fetch, decode, execute.
  function Step(code: seq<Byte>, m: Machine): Outcome
  {
    if 0 <= m.pc < |code| then
      match Decode(code[m.pc..])
      case None => Fault
      case Some((i, len)) => Execute(i, len, m)
    else Fault
  }

  function Stepper(code: seq<Byte>): Machine -> Outcome {
    m => Step(code, m)
  }

  // `n` steps, ending early on return or fault.
  function Run(code: seq<Byte>, m: Machine, n: nat): Outcome {
    Iterate(Stepper(code), m, n)
  }

  // Stepping at a decodable byte string executes it.
  lemma StepAt(code: seq<Byte>, m: Machine, bytes: seq<Byte>)
    requires At(code, m.pc, bytes) && |bytes| > 0
    requires Decode(bytes).Some?
    ensures Step(code, m) == Execute(Decode(bytes).value.0, Decode(bytes).value.1, m)
  {
    assert code[m.pc..] == bytes + code[m.pc + |bytes|..];
    DecodePrefix(bytes, code[m.pc + |bytes|..]);
  }
}
