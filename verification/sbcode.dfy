/**
 What the generator emits, as a left-to-right pass over the statement list with a stack of
 open whiles and in-place patching of forward jumps; and `Code`, the position-independent
 code of a nested program, which the pass is proved to produce.
 */
module SbCode {
  import opened Base
  import opened Word32
  import opened SbLang

  type Bytes = seq<Byte>

  datatype Error =
    | BadParameter | BadLocal | BadKind | ConstantTarget | BadOperator | ConstantCondition
    | EndWithoutWhile | OpenWhiles

  // Only upper bounds are tested, so a negative index passes.
  function TestaVar(o: Operand): Option<Error> {
    if o.kind == 'p' then if o.n > 4 then Some(BadParameter) else None
    else if o.kind == 'v' then if o.n > 9 then Some(BadLocal) else None
    else if o.kind != '$' then Some(BadKind)
    else None
  }

  // The %ebp displacement byte of a parameter or local, truncated to unsigned char.
  function Disp(o: Operand): Byte {
    if o.kind == 'p' then (8 + 4 * o.n as int) % 256 else (-4 * o.n as int - 4) % 256
  }

  function MovlMemToReg(o: Operand, reg: char): Bytes {
    if o.kind == 'p' || o.kind == 'v' then
      [0x8b, if reg == 'c' then 0x4d else 0x55, Disp(o)]
    else
      [if reg == 'c' then 0xb9 else 0xba] + ToBytes(Wrap(o.n))
  }

  function MovlFromReg(o: Operand): Bytes {
    [0x89, 0x55, Disp(o)]
  }

  function OpBytes(op: char): Bytes {
    if op == '+' then [0x01, 0xca]
    else if op == '-' then [0x29, 0xca]
    else [0x0f, 0xaf, 0xd1]
  }

  function AssignBytes(dst: Operand, left: Operand, op: char, right: Operand): Bytes {
    MovlMemToReg(left, if op == '-' then 'd' else 'c')
    + (MovlMemToReg(right, if op == '-' then 'c' else 'd')
       + (OpBytes(op) + MovlFromReg(dst)))
  }

  // cmpl $0, var; je with the given displacement.
  function WhileBytes(cond: Operand, je: Bytes): Bytes {
    [0x83, 0x7d, Disp(cond), 0x00] + ([0x0f, 0x84] + je)
  }

  function JmpBytes(rel: int): Bytes {
    [0xe9] + ToBytes(Wrap(rel))
  }

  const PLACEHOLDER: Bytes := [0xff, 0xff, 0xff, 0xff]
  const PROLOGO: Bytes := [0x55, 0x89, 0xe5, 0x83, 0xec, 0x28]
  const FINALIZACAO: Bytes := [0x8b, 0x45, 0xfc, 0x89, 0xec, 0x5d, 0xc3]

  // The tests a statement must pass, in the order they are made.
  function Check(s: Stmt): Option<Error> {
    match s
    case Assign(dst, left, op, right) =>
      if TestaVar(dst).Some? then TestaVar(dst)
      else if TestaVar(left).Some? then TestaVar(left)
      else if TestaVar(right).Some? then TestaVar(right)
      else if dst.kind == '$' then Some(ConstantTarget)
      else if !ProperOp(op) then Some(BadOperator)
      else None
    case While(cond) =>
      if TestaVar(cond).Some? then TestaVar(cond)
      else if cond.kind == '$' then Some(ConstantCondition)
      else None
    case End => None
  }

  // ----- the pass -----

  // Bytes emitted so far and the addresses of the cmpl of the whiles still open.
  datatype Emitted = Emitted(code: Bytes, open: seq<nat>) {
    ghost predicate Valid() {
      forall i :: 0 <= i < |open| ==> open[i] + 10 <= |code|
    }
  }

  function Patch(code: Bytes, at: nat, bytes: Bytes): Bytes
    requires at + |bytes| <= |code|
  {
    code[..at] + bytes + code[at + |bytes|..]
  }

  // The je displacement and the jmp displacement an `end` at `end` computes for a while at `w`.
  function JeRel(w: int, end: int): int { (end + 4) - (w + 9) }
  function JmpRel(w: int, end: int): int { w - (end + 5) }

  function Emit(g: Emitted, s: Stmt): (r: Result<Emitted, Error>)
    requires g.Valid()
    ensures r.Ok? ==> r.value.Valid()
  {
    if Check(s).Some? then Err(Check(s).value)
    else
      match s
      case Assign(dst, left, op, right) =>
        Ok(Emitted(g.code + AssignBytes(dst, left, op, right), g.open))
      case While(cond) =>
        Ok(Emitted(g.code + WhileBytes(cond, PLACEHOLDER), g.open + [|g.code|]))
      case End =>
        if g.open == [] then Err(EndWithoutWhile)
        else
          var w, end := g.open[|g.open| - 1], |g.code|;
          Ok(Emitted(Patch(g.code, w + 6, ToBytes(Wrap(JeRel(w, end)))) + JmpBytes(JmpRel(w, end)),
                     g.open[..|g.open| - 1]))
  }

  function EmitAll(g: Emitted, ss: seq<Stmt>): (r: Result<Emitted, Error>)
    requires g.Valid()
    ensures r.Ok? ==> r.value.Valid()
    decreases |ss|
  {
    if ss == [] then Ok(g)
    else
      match Emit(g, ss[0])
      case Err(e) => Err(e)
      case Ok(g') => EmitAll(g', ss[1..])
  }

  // The whole generator: the bytes of the function, or the error it exits with.
  function Geracod(ss: seq<Stmt>): Result<Bytes, Error> {
    match EmitAll(Emitted(PROLOGO, []), ss)
    case Err(e) => Err(e)
    case Ok(g) => if g.open != [] then Err(OpenWhiles) else Ok(g.code + FINALIZACAO)
  }

  // ----- the code of a nested program -----

  function Code(b: Block): Bytes {
    match b
    case Nil => []
    case Set(dst, left, op, right, rest) => AssignBytes(dst, left, op, right) + Code(rest)
    case Loop(cond, body, rest) => LoopBytes(cond, Code(body)) + Code(rest)
  }

  // The je leaves past the jmp; the jmp goes back to the cmpl.
  function LoopBytes(cond: Operand, body: Bytes): Bytes {
    WhileBytes(cond, ToBytes(Wrap(|body| + 5))) + (body + JmpBytes(-(|body| + 15)))
  }

  predicate Accepted(ss: seq<Stmt>) {
    ss == [] || (Check(ss[0]).None? && Accepted(ss[1..]))
  }

  // Closing a while turns the placeholder and the body emitted after it into the loop's code.
  lemma CloseLoop(before: Bytes, cond: Operand, body: Bytes)
    ensures
      var code := before + WhileBytes(cond, PLACEHOLDER) + body;
      var w, end := |before|, |code|;
      Patch(code, w + 6, ToBytes(Wrap(JeRel(w, end)))) + JmpBytes(JmpRel(w, end))
        == before + LoopBytes(cond, body)
  {
    var code := before + WhileBytes(cond, PLACEHOLDER) + body;
    var w, end := |before|, |code|;
    var je := ToBytes(Wrap(JeRel(w, end)));
    assert JeRel(w, end) == |body| + 5 && JmpRel(w, end) == -(|body| + 15);
    assert code[w + 10..] == body;
    assert code[..w + 6] == before + [0x83, 0x7d, Disp(cond), 0x00, 0x0f, 0x84];
    assert Patch(code, w + 6, je) == before + WhileBytes(cond, je) + body;
  }

  lemma EmitCons(g: Emitted, s: Stmt, g': Emitted, more: seq<Stmt>)
    requires g.Valid() && Emit(g, s) == Ok(g')
    ensures EmitAll(g, [s] + more) == EmitAll(g', more)
  {
    assert ([s] + more)[1..] == more;
  }

  lemma Assoc(a: Bytes, b: Bytes, c: Bytes)
    ensures a + (b + c) == a + b + c
  {
  }

  lemma AcceptedCons(s: Stmt, more: seq<Stmt>)
    requires Accepted([s] + more)
    ensures Check(s).None? && Accepted(more)
  {
    assert ([s] + more)[1..] == more;
  }

  lemma EmitEnd(code: Bytes, open: seq<nat>, cond: Operand, body: Bytes)
    requires Emitted(code, open).Valid()
    ensures
      var g := Emitted(code + WhileBytes(cond, PLACEHOLDER) + body, open + [|code|]);
      g.Valid() && Emit(g, End) == Ok(Emitted(code + LoopBytes(cond, body), open))
  {
    var g := Emitted(code + WhileBytes(cond, PLACEHOLDER) + body, open + [|code|]);
    assert g.open[..|g.open| - 1] == open;
    CloseLoop(code, cond, body);
  }

  // Emitting an accepted block appends its code and leaves the open whiles as they were.
  lemma {:induction false} EmitBlock(g: Emitted, b: Block, more: seq<Stmt>)
    requires g.Valid() && Accepted(FlattenThen(b, more))
    ensures EmitAll(g, FlattenThen(b, more)) == EmitAll(Emitted(g.code + Code(b), g.open), more)
    decreases b
  {
    match b
    case Nil =>
      assert g.code + Code(b) == g.code;
    case Set(dst, left, op, right, rest) =>
      EmitSet(g, b, more);
    case Loop(cond, body, rest) =>
      EmitLoop(g, b, more);
  }

  lemma {:induction false} EmitSet(g: Emitted, b: Block, more: seq<Stmt>)
    requires b.Set? && g.Valid() && Accepted(FlattenThen(b, more))
    ensures EmitAll(g, FlattenThen(b, more)) == EmitAll(Emitted(g.code + Code(b), g.open), more)
    decreases b, 0
  {
    var s := Assign(b.dst, b.left, b.op, b.right);
    var bytes := AssignBytes(b.dst, b.left, b.op, b.right);
    var after := FlattenThen(b.rest, more);
    AcceptedCons(s, after);
    var g' := Emitted(g.code + bytes, g.open);
    EmitCons(g, s, g', after);
    EmitBlock(g', b.rest, more);
    Assoc(g.code, bytes, Code(b.rest));
  }

  lemma {:induction false} EmitLoop(g: Emitted, b: Block, more: seq<Stmt>)
    requires b.Loop? && g.Valid() && Accepted(FlattenThen(b, more))
    ensures EmitAll(g, FlattenThen(b, more)) == EmitAll(Emitted(g.code + Code(b), g.open), more)
    decreases b, 0
  {
    var body := Code(b.body);
    var tail := FlattenThen(b.rest, more);
    var after := FlattenThen(b.body, [End] + tail);
    AcceptedCons(While(b.cond), after);
    AcceptedTail(b.body, [End] + tail);
    AcceptedCons(End, tail);
    var g1 := Emitted(g.code + WhileBytes(b.cond, PLACEHOLDER), g.open + [|g.code|]);
    EmitCons(g, While(b.cond), g1, after);
    EmitBlock(g1, b.body, [End] + tail);
    EmitEnd(g.code, g.open, b.cond, body);
    var g2 := Emitted(g.code + LoopBytes(b.cond, body), g.open);
    EmitCons(Emitted(g1.code + body, g1.open), End, g2, tail);
    EmitBlock(g2, b.rest, more);
    Assoc(g.code, LoopBytes(b.cond, body), Code(b.rest));
  }

  lemma {:induction false} AcceptedTail(b: Block, more: seq<Stmt>)
    requires Accepted(FlattenThen(b, more))
    ensures Accepted(more)
    decreases b
  {
    match b
    case Nil =>
    case Set(dst, left, op, right, rest) =>
      assert FlattenThen(b, more)[1..] == FlattenThen(rest, more);
      AcceptedTail(rest, more);
    case Loop(cond, body, rest) =>
      var after := [End] + FlattenThen(rest, more);
      assert FlattenThen(b, more)[1..] == FlattenThen(body, after);
      AcceptedTail(body, after);
      assert after[1..] == FlattenThen(rest, more);
      AcceptedTail(rest, more);
  }

  lemma EmitTracks(g: Emitted, s: Stmt)
    requires g.Valid()
    ensures Emit(g, s).Ok? <==> Check(s).None? && (s.End? ==> g.open != [])
    ensures Emit(g, s).Ok? ==>
              && |Emit(g, s).value.open| == |g.open| + (if s.While? then 1 else if s.End? then -1 else 0)
              && |Emit(g, s).value.code| <= |g.code| + 16
  {
  }

  // A pass that succeeds saw only accepted statements and tracked the open whiles; each
  // statement costs at most 16 bytes.
  lemma {:induction false} EmitAllTracks(g: Emitted, ss: seq<Stmt>)
    requires g.Valid()
    ensures EmitAll(g, ss).Ok? <==> Accepted(ss) && OpenAfter(ss, |g.open|).Some?
    ensures EmitAll(g, ss).Ok? ==>
              && |EmitAll(g, ss).value.open| == OpenAfter(ss, |g.open|).value
              && |EmitAll(g, ss).value.code| <= |g.code| + 16 * |ss|
    decreases |ss|
  {
    hide Emit, Check;
    if ss != [] {
      EmitTracks(g, ss[0]);
      if Emit(g, ss[0]).Ok? {
        EmitAllTracks(Emit(g, ss[0]).value, ss[1..]);
      }
    }
  }

  // The generator succeeds exactly on balanced lists of accepted statements.
  lemma GeracodAccepts(ss: seq<Stmt>)
    ensures Geracod(ss).Ok? <==> Balanced(ss) && Accepted(ss)
  {
    EmitAllTracks(Emitted(PROLOGO, []), ss);
  }

  // Back-patching is exact: no placeholder is left, every jump lands where the nesting says,
  // and the emitted function is the prologue, the code of the program's tree, the epilogue.
  lemma GeracodIsCode(ss: seq<Stmt>)
    requires Geracod(ss).Ok?
    ensures Flatten(Parse(ss).0) == ss
    ensures Geracod(ss).value == PROLOGO + Code(Parse(ss).0) + FINALIZACAO
    ensures |Geracod(ss).value| <= 6 + 16 * |ss| + 7
  {
    GeracodAccepts(ss);
    BalancedIffTree(ss);
    EmitAllTracks(Emitted(PROLOGO, []), ss);
    EmitBlock(Emitted(PROLOGO, []), Parse(ss).0, []);
  }

  // The most whiles open at once while reading the list.
  function Peak(ss: seq<Stmt>, open: nat): (most: nat)
    ensures most >= open
  {
    if ss == [] then open
    else
      match ss[0]
      case Assign(_, _, _, _) => Peak(ss[1..], open)
      case While(_) => Peak(ss[1..], open + 1)
      case End => if open == 0 then open else
        var rest := Peak(ss[1..], open - 1);
        if rest < open then open else rest
  }

  lemma {:induction false} PeakBound(ss: seq<Stmt>, open: nat)
    requires OpenAfter(ss, open).Some?
    ensures 2 * Peak(ss, open) <= |ss| + open + OpenAfter(ss, open).value
    decreases |ss|
  {
    if ss != [] {
      match ss[0]
      case Assign(_, _, _, _) => PeakBound(ss[1..], open);
      case While(_) => PeakBound(ss[1..], open + 1);
      case End => PeakBound(ss[1..], open - 1); OpenBound(ss, open);
    }
  }

  lemma {:induction false} OpenBound(ss: seq<Stmt>, open: nat)
    requires OpenAfter(ss, open).Some?
    ensures open <= |ss| + OpenAfter(ss, open).value
    decreases |ss|
  {
    if ss != [] {
      match ss[0]
      case Assign(_, _, _, _) => OpenBound(ss[1..], open);
      case While(_) => OpenBound(ss[1..], open + 1);
      case End => OpenBound(ss[1..], open - 1);
    }
  }

  // A balanced program never has more whiles open than half its statements, so 25 slots
  // serve every accepted program of at most 50 lines.
  lemma OpenWhilesHalf(ss: seq<Stmt>)
    requires Balanced(ss)
    ensures 2 * Peak(ss, 0) <= |ss|
  {
    PeakBound(ss, 0);
  }

  // Proper statements are accepted; the converse fails for negative indices only.
  lemma AcceptedOperands(o: Operand)
    ensures TestaVar(o).None? && o.n >= 0 ==> Proper(o)
    ensures Proper(o) ==> TestaVar(o).None?
    ensures TestaVar(o).None? && !Proper(o) ==> o.kind != '$' && o.n < 0
  {
  }

  // The error a statement is refused with: a bad operand comes first, in the order target, left,
  // right; then a constant in place of a variable; then the operator.
  lemma RefusedWith(dst: Operand, left: Operand, op: char, right: Operand)
    ensures TestaVar(dst) == Some(BadParameter) <==> dst.kind == 'p' && dst.n >= 5
    ensures TestaVar(dst) == Some(BadLocal) <==> dst.kind == 'v' && dst.n >= 10
    ensures TestaVar(dst) == Some(BadKind) <==> dst.kind !in "pv$"
    ensures TestaVar(dst).Some? ==> Check(Assign(dst, left, op, right)) == TestaVar(dst) == Check(While(dst))
    ensures TestaVar(dst).None? && TestaVar(left).Some? ==> Check(Assign(dst, left, op, right)) == TestaVar(left)
    ensures TestaVar(dst).None? && TestaVar(left).None? && TestaVar(right).Some? ==>
              Check(Assign(dst, left, op, right)) == TestaVar(right)
    ensures TestaVar(dst).None? && TestaVar(left).None? && TestaVar(right).None? ==>
              && (Check(Assign(dst, left, op, right)) == Some(ConstantTarget) <==> dst.kind == '$')
              && (Check(Assign(dst, left, op, right)) == Some(BadOperator) <==> dst.kind != '$' && op !in "+-*")
              && (Check(Assign(dst, left, op, right)).None? <==> dst.kind != '$' && op in "+-*")
              && (Check(While(dst)) == Some(ConstantCondition) <==> dst.kind == '$')
              && (Check(While(dst)).None? <==> dst.kind != '$')
  {
    assert "+-*"[0] == '+' && "+-*"[1] == '-' && "+-*"[2] == '*';
    assert "pv$"[0] == 'p' && "pv$"[1] == 'v' && "pv$"[2] == '$';
  }

  lemma {:induction false} ProperAccepted(ss: seq<Stmt>)
    requires ProperList(ss)
    ensures Accepted(ss)
    decreases |ss|
  {
    if ss != [] {
      ProperAccepted(ss[1..]);
    }
  }
}
