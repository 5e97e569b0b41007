/**
 Adaptive trapezoid quadrature over exact reals: when an interval is split, the recursion of
 curve_subarea as a tree, its area, and the leaf intervals it ends in.
 */
module QuadArea {

  type Interval = (real, real)

  // The integrand and the error tolerance.
  datatype Problem = Problem(f: real -> real, tol: real)

  function Mid(a: real, b: real): real {
    (a + b) * 0.5
  }

  function Trap(p: Problem, l: real, r: real): real {
    (p.f(l) + p.f(r)) * (r - l) * 0.5
  }

  // Both halves together; what a leaf reports.
  function Halves(p: Problem, a: real, b: real): real {
    Trap(p, a, Mid(a, b)) + Trap(p, Mid(a, b), b)
  }

  // fabs(error) <= TOL fails.
  predicate Splits(p: Problem, a: real, b: real) {
    var error := Trap(p, a, b) - Halves(p, a, b);
    !((if error < 0.0 then -error else error) <= p.tol)
  }

  // The shape of the calls curve_subarea makes on an interval.
  datatype Tree = Leaf | Node(left: Tree, right: Tree)

  predicate IsTree(p: Problem, t: Tree, a: real, b: real) {
    match t
    case Leaf => !Splits(p, a, b)
    case Node(l, r) => Splits(p, a, b) && IsTree(p, l, a, Mid(a, b)) && IsTree(p, r, Mid(a, b), b)
  }

  // The value the sequential recursion returns.
  function TreeArea(p: Problem, t: Tree, a: real, b: real): real {
    match t
    case Leaf => Halves(p, a, b)
    case Node(l, r) => TreeArea(p, l, a, Mid(a, b)) + TreeArea(p, r, Mid(a, b), b)
  }

  function TreeLeaves(t: Tree, a: real, b: real): (ls: seq<Interval>)
    ensures ls != []
  {
    match t
    case Leaf => [(a, b)]
    case Node(l, r) => TreeLeaves(l, a, Mid(a, b)) + TreeLeaves(r, Mid(a, b), b)
  }

  lemma {:induction false} TreeUnique(p: Problem, t: Tree, t': Tree, a: real, b: real)
    requires IsTree(p, t, a, b) && IsTree(p, t', a, b)
    ensures t == t'
    decreases t
  {
    match t
    case Leaf =>
    case Node(l, r) =>
      TreeUnique(p, l, t'.left, a, Mid(a, b));
      TreeUnique(p, r, t'.right, Mid(a, b), b);
  }

  // The sequential recursion ends on the interval.
  ghost predicate Finite(p: Problem, a: real, b: real) {
    exists t :: IsTree(p, t, a, b)
  }

  ghost function TheTree(p: Problem, a: real, b: real): (t: Tree)
    requires Finite(p, a, b)
    ensures IsTree(p, t, a, b)
  {
    var t :| IsTree(p, t, a, b); t
  }

  // The sequential curve_subarea of the interval.
  ghost function Area(p: Problem, a: real, b: real): real {
    if Finite(p, a, b) then TreeArea(p, TheTree(p, a, b), a, b) else 0.0
  }

  ghost function Leaves(p: Problem, a: real, b: real): seq<Interval> {
    if Finite(p, a, b) then TreeLeaves(TheTree(p, a, b), a, b) else []
  }

  lemma LeafFacts(p: Problem, a: real, b: real)
    requires !Splits(p, a, b)
    ensures Finite(p, a, b) && Area(p, a, b) == Halves(p, a, b) && Leaves(p, a, b) == [(a, b)]
  {
    assert IsTree(p, Leaf, a, b);
    TreeUnique(p, Leaf, TheTree(p, a, b), a, b);
  }

  lemma SplitFacts(p: Problem, a: real, b: real)
    requires Splits(p, a, b) && Finite(p, a, b)
    ensures Finite(p, a, Mid(a, b)) && Finite(p, Mid(a, b), b)
    ensures Area(p, a, b) == Area(p, a, Mid(a, b)) + Area(p, Mid(a, b), b)
    ensures Leaves(p, a, b) == Leaves(p, a, Mid(a, b)) + Leaves(p, Mid(a, b), b)
  {
    var m := Mid(a, b);
    match TheTree(p, a, b)
    case Node(l, r) =>
      assert IsTree(p, l, a, m) && IsTree(p, r, m, b);
      TreeUnique(p, l, TheTree(p, a, m), a, m);
      TreeUnique(p, r, TheTree(p, m, b), m, b);
  }

  // ----- tiling -----

  // The intervals lie end to end from l to r.
  ghost predicate Tiles(ls: seq<Interval>, l: real, r: real) {
    && ls != []
    && ls[0].0 == l && ls[|ls| - 1].1 == r
    && forall k :: 0 < k < |ls| ==> ls[k - 1].1 == ls[k].0
  }

  lemma TilesAppend(a: seq<Interval>, b: seq<Interval>, l: real, m: real, r: real)
    requires Tiles(a, l, m) && Tiles(b, m, r)
    ensures Tiles(a + b, l, r)
  {
  }

  lemma {:induction false} TreeTiles(t: Tree, a: real, b: real)
    ensures Tiles(TreeLeaves(t, a, b), a, b)
    decreases t
  {
    match t
    case Leaf =>
    case Node(l, r) =>
      TreeTiles(l, a, Mid(a, b));
      TreeTiles(r, Mid(a, b), b);
      TilesAppend(TreeLeaves(l, a, Mid(a, b)), TreeLeaves(r, Mid(a, b), b), a, Mid(a, b), b);
  }

  // The leaves of the recursion cover the interval without gaps or overlaps.
  lemma LeavesTile(p: Problem, a: real, b: real)
    requires Finite(p, a, b)
    ensures Tiles(Leaves(p, a, b), a, b)
  {
    TreeTiles(TheTree(p, a, b), a, b);
  }
}
