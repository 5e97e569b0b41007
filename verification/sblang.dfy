/**
 The SB language: flat statement lists as the generator reads them, the nested programs they
 stand for, and what a program computes on its locals v0..v9 and parameters p0..p4.
 */
module SbLang {
  import opened Base
  import opened Word32

  // 'v' a local, 'p' a parameter, '$' a constant; the generator also meets other characters.
  datatype Operand = Operand(kind: char, n: Int32)

  datatype Stmt =
    | Assign(dst: Operand, left: Operand, op: char, right: Operand)
    | While(cond: Operand)
    | End

  // A well-nested statement list as a tree.
  datatype Block =
    | Nil
    | Set(dst: Operand, left: Operand, op: char, right: Operand, rest: Block)
    | Loop(cond: Operand, body: Block, rest: Block)

  // The statements of the block, followed by `more`.
  function FlattenThen(b: Block, more: seq<Stmt>): seq<Stmt> {
    match b
    case Nil => more
    case Set(dst, left, op, right, rest) => [Assign(dst, left, op, right)] + FlattenThen(rest, more)
    case Loop(cond, body, rest) =>
      [While(cond)] + FlattenThen(body, [End] + FlattenThen(rest, more))
  }

  function Flatten(b: Block): seq<Stmt> {
    FlattenThen(b, [])
  }

  // ----- parsing -----

  // The longest block the list starts with, and what is left: nothing, an unmatched `end`,
  // or a `while` that is never closed.
  function Parse(ss: seq<Stmt>): (r: (Block, seq<Stmt>))
    ensures |r.1| <= |ss|
    decreases |ss|
  {
    if ss == [] || ss[0].End? then (Nil, ss)
    else
      match ss[0]
      case Assign(dst, left, op, right) =>
        var (rest, left') := Parse(ss[1..]);
        (Set(dst, left, op, right, rest), left')
      case While(cond) =>
        var (body, after) := Parse(ss[1..]);
        if after == [] || !after[0].End? then (Nil, ss)
        else
          var (rest, left') := Parse(after[1..]);
          (Loop(cond, body, rest), left')
  }

  lemma {:induction false} ParseFlatten(ss: seq<Stmt>)
    ensures FlattenThen(Parse(ss).0, Parse(ss).1) == ss
    decreases |ss|
  {
    if ss != [] && !ss[0].End? {
      ParseFlatten(ss[1..]);
      if ss[0].While? {
        var after := Parse(ss[1..]).1;
        if after != [] && after[0].End? {
          ParseFlatten(after[1..]);
          assert [End] + after[1..] == after;
        }
      }
    }
  }

  // Whatever follows a block, reading stops there: a block is never read past its end.
  lemma {:induction false} FlattenParse(b: Block, more: seq<Stmt>)
    requires more == [] || more[0].End?
    ensures Parse(FlattenThen(b, more)) == (b, more)
    decreases b
  {
    match b
    case Nil =>
    case Set(dst, left, op, right, rest) =>
      FlattenParse(rest, more);
      assert FlattenThen(b, more)[1..] == FlattenThen(rest, more);
    case Loop(cond, body, rest) =>
      var after := [End] + FlattenThen(rest, more);
      FlattenParse(body, after);
      FlattenParse(rest, more);
      assert FlattenThen(b, more)[1..] == FlattenThen(body, after);
      assert after[1..] == FlattenThen(rest, more);
  }

  // The number of open whiles after the list, started with `open` of them; None when an `end`
  // has no while to close.
  function OpenAfter(ss: seq<Stmt>, open: nat): Option<nat> {
    if ss == [] then Some(open)
    else
      match ss[0]
      case Assign(_, _, _, _) => OpenAfter(ss[1..], open)
      case While(_) => OpenAfter(ss[1..], open + 1)
      case End => if open == 0 then None else OpenAfter(ss[1..], open - 1)
  }

  predicate Balanced(ss: seq<Stmt>) {
    OpenAfter(ss, 0) == Some(0)
  }

  lemma {:induction false} BlockKeepsOpen(b: Block, more: seq<Stmt>, open: nat)
    ensures OpenAfter(FlattenThen(b, more), open) == OpenAfter(more, open)
    decreases b
  {
    match b
    case Nil =>
    case Set(dst, left, op, right, rest) =>
      BlockKeepsOpen(rest, more, open);
      assert FlattenThen(b, more)[1..] == FlattenThen(rest, more);
    case Loop(cond, body, rest) =>
      var after := [End] + FlattenThen(rest, more);
      BlockKeepsOpen(body, after, open + 1);
      BlockKeepsOpen(rest, more, open);
      assert FlattenThen(b, more)[1..] == FlattenThen(body, after);
      assert after[1..] == FlattenThen(rest, more);
  }

  // A list whose open count returns to where it was has no unclosed while in front.
  lemma {:induction false} NoUnclosed(ss: seq<Stmt>, open: nat)
    requires OpenAfter(ss, open).Some? && OpenAfter(ss, open).value <= open
    ensures Parse(ss).1 == [] || Parse(ss).1[0].End?
    decreases |ss|
  {
    if ss == [] || ss[0].End? {
    } else if ss[0].Assign? {
      NoUnclosed(ss[1..], open);
    } else {
      NoUnclosed(ss[1..], open + 1);
      var (body, after) := Parse(ss[1..]);
      ParseFlatten(ss[1..]);
      BlockKeepsOpen(body, after, open + 1);
      if after != [] {
        NoUnclosed(after[1..], open);
      }
    }
  }

  // Balanced lists are exactly the flattened trees, and Parse finds the only tree.
  lemma {:induction false} BalancedIffTree(ss: seq<Stmt>)
    ensures Balanced(ss) <==> exists b :: Flatten(b) == ss
    ensures Balanced(ss) ==> Flatten(Parse(ss).0) == ss
    ensures forall b :: Flatten(b) == ss ==> Parse(ss) == (b, [])
  {
    ParseFlatten(ss);
    var (b, after) := Parse(ss);
    BlockKeepsOpen(b, after, 0);
    if Balanced(ss) {
      NoUnclosed(ss, 0);
      assert Flatten(b) == ss;
    }
    forall c | Flatten(c) == ss
      ensures Balanced(ss) && Parse(ss) == (c, [])
    {
      BlockKeepsOpen(c, [], 0);
      FlattenParse(c, []);
    }
  }

  // ----- meaning -----

  const LOCALS := 10
  const PARAMS := 5

  datatype State = State(v: seq<Word>, p: seq<Word>) {
    ghost predicate Valid() {
      |v| == LOCALS && |p| == PARAMS
    }
  }

  // The operands the language has: v0..v9, p0..p4 and constants.
  predicate Proper(o: Operand) {
    || (o.kind == 'v' && 0 <= o.n < LOCALS)
    || (o.kind == 'p' && 0 <= o.n < PARAMS)
    || o.kind == '$'
  }

  predicate ProperVar(o: Operand) {
    Proper(o) && o.kind != '$'
  }

  predicate ProperOp(op: char) {
    op == '+' || op == '-' || op == '*'
  }

  predicate ProperStmt(s: Stmt) {
    match s
    case Assign(dst, left, op, right) => ProperVar(dst) && Proper(left) && ProperOp(op) && Proper(right)
    case While(cond) => ProperVar(cond)
    case End => true
  }

  predicate ProperBlock(b: Block) {
    match b
    case Nil => true
    case Set(dst, left, op, right, rest) =>
      ProperVar(dst) && Proper(left) && ProperOp(op) && Proper(right) && ProperBlock(rest)
    case Loop(cond, body, rest) => ProperVar(cond) && ProperBlock(body) && ProperBlock(rest)
  }

  predicate ProperList(ss: seq<Stmt>) {
    ss == [] || (ProperStmt(ss[0]) && ProperList(ss[1..]))
  }

  lemma {:induction false} ProperFlatten(b: Block, more: seq<Stmt>)
    ensures ProperList(FlattenThen(b, more)) <==> ProperBlock(b) && ProperList(more)
    decreases b
  {
    match b
    case Nil =>
    case Set(dst, left, op, right, rest) =>
      ProperFlatten(rest, more);
      assert FlattenThen(b, more)[1..] == FlattenThen(rest, more);
    case Loop(cond, body, rest) =>
      var after := [End] + FlattenThen(rest, more);
      ProperFlatten(body, after);
      ProperFlatten(rest, more);
      assert FlattenThen(b, more)[1..] == FlattenThen(body, after);
      assert after[1..] == FlattenThen(rest, more);
  }

  function Value(s: State, o: Operand): Word
    requires s.Valid() && Proper(o)
  {
    if o.kind == 'v' then s.v[o.n] else if o.kind == 'p' then s.p[o.n] else Wrap(o.n)
  }

  function Store(s: State, o: Operand, w: Word): (s': State)
    requires s.Valid() && ProperVar(o)
    ensures s'.Valid()
  {
    if o.kind == 'v' then s.(v := s.v[o.n := w]) else s.(p := s.p[o.n := w])
  }

  function Apply(op: char, a: Word, b: Word): Word
    requires ProperOp(op)
  {
    if op == '+' then Wrap(a as int + b)
    else if op == '-' then Wrap(a as int - b)
    else Wrap(a as int * b)
  }

  // Runs the block, entering loop bodies at most `fuel` times along any path; None when
  // that is not enough. A program halts when some fuel is enough.
  function Eval(b: Block, fuel: nat, s: State): (r: Option<State>)
    requires s.Valid() && ProperBlock(b)
    ensures r.Some? ==> r.value.Valid()
    decreases fuel, b
  {
    match b
    case Nil => Some(s)
    case Set(dst, left, op, right, rest) =>
      Eval(rest, fuel, Store(s, dst, Apply(op, Value(s, left), Value(s, right))))
    case Loop(cond, body, rest) =>
      if Value(s, cond) == 0 then Eval(rest, fuel, s)
      else if fuel == 0 then None
      else
        match Eval(body, fuel - 1, s)
        case None => None
        case Some(s') => Eval(b, fuel - 1, s')
  }

  ghost predicate Halts(b: Block, s: State)
    requires s.Valid() && ProperBlock(b)
  {
    exists fuel: nat :: Eval(b, fuel, s).Some?
  }
}
