/**
 What the quadrature computes, in terms of the integrand alone: a composite trapezoid sum over
 leaves that meet the tolerance, and the exact integral of every linear integrand.
 */
module QuadExact {
  import opened Sums
  import opened QuadArea
  import opened QuadFarm

  // How far the trapezoid over [a, b] is from the two trapezoids over its halves.
  function Gap(p: Problem, a: real, b: real): real {
    (p.f(a) - 2.0 * p.f((a + b) / 2.0) + p.f(b)) * (b - a) / 4.0
  }

  // The two trapezoids over the halves of an interval.
  function TwoTraps(p: Problem, t: Interval): real {
    (p.f(t.0) + 2.0 * p.f((t.0 + t.1) / 2.0) + p.f(t.1)) * (t.1 - t.0) / 4.0
  }

  ghost function TwoTrapsF(p: Problem): Interval -> real { t => TwoTraps(p, t) }

  lemma Distribute(x: real, y: real, z: real, w: real)
    ensures (x + y) * (w * 0.5) * 0.5 + (y + z) * (w * 0.5) * 0.5 == (x + 2.0 * y + z) * w / 4.0
    ensures (x + z) * w * 0.5 - (x + 2.0 * y + z) * w / 4.0 == (x - 2.0 * y + z) * w / 4.0
  {
    assert (x + 2.0 * y + z) * w == x * w + 2.0 * (y * w) + z * w;
    assert (x - 2.0 * y + z) * w == x * w - 2.0 * (y * w) + z * w;
    assert (x + z) * w == x * w + z * w;
    assert (x + y) * (w * 0.5) == (x * w + y * w) * 0.5 && (y + z) * (w * 0.5) == (y * w + z * w) * 0.5;
  }

  // An interval is accepted iff the gap is within the tolerance on both sides, and then counts
  // with the two trapezoids over its halves.
  lemma AcceptedIff(p: Problem, a: real, b: real)
    ensures Splits(p, a, b) <==> !(-p.tol <= Gap(p, a, b) <= p.tol)
    ensures !Splits(p, a, b) ==> Area(p, a, b) == TwoTraps(p, (a, b))
  {
    var m := Mid(a, b);
    assert m == (a + b) / 2.0 && m - a == (b - a) * 0.5 && b - m == (b - a) * 0.5;
    Distribute(p.f(a), p.f(m), p.f(b), b - a);
    assert Halves(p, a, b) == TwoTraps(p, (a, b));
    assert Trap(p, a, b) - Halves(p, a, b) == Gap(p, a, b);
    if !Splits(p, a, b) {
      LeafFacts(p, a, b);
    }
  }

  // ----- the leaves -----

  lemma {:induction false} SumAppend<T(!new)>(s: seq<T>, t: seq<T>, f: T -> real)
    ensures Sum(s + t, f) == Sum(s, f) + Sum(t, f)
    decreases |t|
  {
    if t == [] {
      assert s + t == s;
    } else {
      var last := |t| - 1;
      SumAppend(s, t[..last], f);
      SumPush(s + t[..last], t[last], f);
      assert s + t[..last] + [t[last]] == s + t;
    }
  }

  lemma {:induction false} TreeIsComposite(p: Problem, t: Tree, a: real, b: real)
    requires IsTree(p, t, a, b)
    ensures TreeArea(p, t, a, b) == Sum(TreeLeaves(t, a, b), TwoTrapsF(p))
    ensures forall x :: x in TreeLeaves(t, a, b) ==> -p.tol <= Gap(p, x.0, x.1) <= p.tol
    decreases t
  {
    hide Gap, TwoTraps;
    var m := Mid(a, b);
    match t
    case Leaf =>
      AcceptedIff(p, a, b);
      LeafFacts(p, a, b);
      SumPush([], (a, b), TwoTrapsF(p));
      assert [] + [(a, b)] == [(a, b)];
    case Node(l, r) =>
      TreeIsComposite(p, l, a, m);
      TreeIsComposite(p, r, m, b);
      SumAppend(TreeLeaves(l, a, m), TreeLeaves(r, m, b), TwoTrapsF(p));
  }

  // The sequential area is the composite sum over the leaves, all of which meet the tolerance.
  lemma AreaIsComposite(p: Problem, a: real, b: real)
    requires Finite(p, a, b)
    ensures Area(p, a, b) == Sum(Leaves(p, a, b), TwoTrapsF(p))
    ensures forall x :: x in Leaves(p, a, b) ==> -p.tol <= Gap(p, x.0, x.1) <= p.tol
  {
    TreeIsComposite(p, TheTree(p, a, b), a, b);
  }

  // How many times the interval was halved on the way to each leaf.
  function Depths(t: Tree): seq<nat> {
    match t
    case Leaf => [0]
    case Node(l, r) => Deeper(Depths(l)) + Deeper(Depths(r))
  }

  function Deeper(s: seq<nat>): (r: seq<nat>)
    ensures |r| == |s| && forall i :: 0 <= i < |s| ==> r[i] == s[i] + 1
  {
    seq(|s|, i requires 0 <= i < |s| => s[i] + 1)
  }

  function Pow2(k: nat): real {
    if k == 0 then 1.0 else 2.0 * Pow2(k - 1)
  }

  // Every interval is `v` wide once its width is doubled as often as it was halved.
  ghost predicate Scaled(ls: seq<Interval>, depths: seq<nat>, v: real) {
    |ls| == |depths| && forall i :: 0 <= i < |ls| ==> (ls[i].1 - ls[i].0) * Pow2(depths[i]) == v
  }

  // A leaf reached by k halvings has the width (b - a) / 2^k.
  lemma {:induction false} WidthAtDepth(t: Tree, a: real, b: real)
    ensures Scaled(TreeLeaves(t, a, b), Depths(t), b - a)
    decreases t
  {
    hide Mid, Scaled, Deeper;
    match t
    case Leaf =>
      OneScaled(a, b);
    case Node(l, r) =>
      var m := Mid(a, b);
      MidHalves(a, b);
      WidthAtDepth(l, a, m);
      WidthAtDepth(r, m, b);
      ScaledDeeper(TreeLeaves(l, a, m), Depths(l), b - a);
      ScaledDeeper(TreeLeaves(r, m, b), Depths(r), b - a);
      ScaledAppend(TreeLeaves(l, a, m), Deeper(Depths(l)), TreeLeaves(r, m, b), Deeper(Depths(r)), b - a);
  }

  lemma OneScaled(a: real, b: real)
    ensures Scaled([(a, b)], [0], b - a)
  {
  }

  lemma MidHalves(a: real, b: real)
    ensures Mid(a, b) - a == (b - a) * 0.5 == b - Mid(a, b)
  {
  }

  lemma ScaledDeeper(ls: seq<Interval>, depths: seq<nat>, v: real)
    requires Scaled(ls, depths, v * 0.5)
    ensures Scaled(ls, Deeper(depths), v)
  {
    forall i | 0 <= i < |ls|
      ensures (ls[i].1 - ls[i].0) * Pow2(Deeper(depths)[i]) == v
    {
      HalvedOnce(ls[i].1 - ls[i].0, depths[i], v);
    }
  }

  lemma ScaledAppend(ls: seq<Interval>, ds: seq<nat>, ms: seq<Interval>, es: seq<nat>, v: real)
    requires Scaled(ls, ds, v) && Scaled(ms, es, v)
    ensures Scaled(ls + ms, ds + es, v)
  {
    hide Pow2;
  }

  lemma HalvedOnce(w: real, d: nat, v: real)
    requires w * Pow2(d) == v * 0.5
    ensures w * Pow2(d + 1) == v
  {
    assert w * (2.0 * Pow2(d)) == 2.0 * (w * Pow2(d));
  }

  // ----- linear integrands -----

  ghost predicate Linear(p: Problem, c: real, d: real) {
    forall x :: p.f(x) == c + d * x
  }

  function Integral(c: real, d: real, a: real, b: real): real {
    c * (b - a) + d * (b * b - a * a) / 2.0
  }

  // A linear integrand is integrated exactly, in a single leaf.
  lemma LinearIsExact(p: Problem, c: real, d: real, a: real, b: real)
    requires p.tol >= 0.0 && Linear(p, c, d)
    ensures Finite(p, a, b) && Area(p, a, b) == Integral(c, d, a, b) && Leaves(p, a, b) == [(a, b)]
  {
    var m := (a + b) / 2.0;
    assert p.f(a) == c + d * a && p.f(b) == c + d * b && p.f(m) == c + d * m;
    LineValues(c, d, a, b);
    assert Gap(p, a, b) == 0.0;
    AcceptedIff(p, a, b);
    LeafFacts(p, a, b);
  }

  lemma LineValues(c: real, d: real, a: real, b: real)
    ensures var m := (a + b) / 2.0;
            && ((c + d * a) - 2.0 * (c + d * m) + (c + d * b)) * (b - a) / 4.0 == 0.0
            && ((c + d * a) + 2.0 * (c + d * m) + (c + d * b)) * (b - a) / 4.0 == Integral(c, d, a, b)
  {
    var m, w := (a + b) / 2.0, b - a;
    assert d * m == (d * a + d * b) / 2.0;
    assert (c + d * a) - 2.0 * (c + d * m) + (c + d * b) == 0.0;
    assert (c + d * a) + 2.0 * (c + d * m) + (c + d * b) == 4.0 * c + 2.0 * (d * (a + b));
    assert (4.0 * c + 2.0 * (d * (a + b))) * w == 4.0 * (c * w) + 2.0 * (d * ((a + b) * w));
    assert (a + b) * w == b * b - a * a;
  }

  lemma {:induction false} LinearTasks(c: Config, n: nat, i: nat, c0: real, d: real)
    requires n > 0 && i <= n && c.p.tol >= 0.0 && Linear(c.p, c0, d)
    ensures Sum(InitialTasks(c, n)[..i], TaskF(c.p, AreaOf)) == Integral(c0, d, c.l, StartOf(c, n, i))
    decreases i
  {
    hide StartOf, Area;
    var ts := InitialTasks(c, n);
    if i == 0 {
      FirstStart(c, n);
    } else {
      LinearTasks(c, n, i - 1, c0, d);
      var a, b := StartOf(c, n, i - 1), StartOf(c, n, i);
      LinearIsExact(c.p, c0, d, a, b);
      assert ts[..i] == ts[..i - 1] + [ts[i - 1]];
      SumPush(ts[..i - 1], ts[i - 1], TaskF(c.p, AreaOf));
      IntegralSplits(c0, d, c.l, a, b);
    }
  }

  lemma FirstStart(c: Config, n: nat)
    requires n > 0
    ensures StartOf(c, n, 0) == c.l
  {
  }

  lemma IntegralSplits(c: real, d: real, a: real, m: real, b: real)
    ensures Integral(c, d, a, b) == Integral(c, d, a, m) + Integral(c, d, m, b)
  {
    assert c * (b - a) == c * (m - a) + c * (b - m);
    assert d * (b * b - a * a) == d * (m * m - a * a) + d * (b * b - m * m);
  }

  // ----- the whole program -----

  // The master starts on n intervals of equal width that lie end to end from l to r.
  lemma EqualTasks(c: Config, n: nat)
    requires n > 0
    ensures forall i :: 0 <= i < n ==> InitialTasks(c, n)[i].1 - InitialTasks(c, n)[i].0 == (c.r - c.l) / n as real
    ensures Tiles(InitialTasks(c, n), c.l, c.r)
  {
    LastStart(c, n);
    hide StartOf;
    forall i: nat | i < n
      ensures InitialTasks(c, n)[i].1 - InitialTasks(c, n)[i].0 == (c.r - c.l) / n as real
    {
      StartStep(c, n, i);
    }
  }

  lemma StartStep(c: Config, n: nat, i: nat)
    requires n > 0
    ensures StartOf(c, n, i + 1) - StartOf(c, n, i) == (c.r - c.l) / n as real
  {
    var w := (c.r - c.l) / n as real;
    assert (i + 1) as real * w == i as real * w + w;
  }

  // For a linear integrand the master's total is the integral over [l, r], whatever the
  // number of workers, the version and the interleaving.
  lemma FarmIntegratesLinear(c: Config, workers: nat, actions: seq<Action>, s: State, c0: real, d: real)
    requires workers > 0 && c.p.tol >= 0.0 && Linear(c.p, c0, d)
    requires Runs(c, InitialState(c, workers), actions, s) && s.master.status.Done?
    ensures s.master.total == Integral(c0, d, c.l, c.r)
  {
    hide Runs, StartOf, Sum, Integral, Area;
    var n := workers + 1;
    forall i | 0 <= i < n
      ensures Finite(c.p, InitialTasks(c, n)[i].0, InitialTasks(c, n)[i].1)
    {
      LinearIsExact(c.p, c0, d, InitialTasks(c, n)[i].0, InitialTasks(c, n)[i].1);
    }
    FarmRefinesSequential(c, workers, actions, s);
    LinearTasks(c, n, n, c0, d);
    LastStart(c, n);
    assert InitialTasks(c, n)[..n] == InitialTasks(c, n);
  }

  lemma {:induction false} CompositeTasks(c: Config, n: nat, i: nat)
    requires n > 0 && i <= n && AllFinite(c, n)
    ensures Sum(InitialTasks(c, n)[..i], TaskF(c.p, AreaOf)) == Sum(LeavesUpTo(c, n, i), TwoTrapsF(c.p))
    ensures forall x :: x in LeavesUpTo(c, n, i) ==> -c.p.tol <= Gap(c.p, x.0, x.1) <= c.p.tol
    decreases i
  {
    hide StartOf, Area, Leaves, TwoTraps, Gap;
    if i > 0 {
      var ts := InitialTasks(c, n);
      CompositeTasks(c, n, i - 1);
      AreaIsComposite(c.p, ts[i - 1].0, ts[i - 1].1);
      assert ts[..i] == ts[..i - 1] + [ts[i - 1]];
      SumPush(ts[..i - 1], ts[i - 1], TaskF(c.p, AreaOf));
      SumAppend(LeavesUpTo(c, n, i - 1), Leaves(c.p, ts[i - 1].0, ts[i - 1].1), TwoTrapsF(c.p));
    }
  }

  // For every integrand the master's total is the composite trapezoid sum over intervals that
  // tile [l, r] and all meet the tolerance.
  lemma FarmIsComposite(c: Config, workers: nat, actions: seq<Action>, s: State) returns (leaves: seq<Interval>)
    requires workers > 0 && AllFinite(c, workers + 1)
    requires Runs(c, InitialState(c, workers), actions, s) && s.master.status.Done?
    ensures multiset(leaves) == s.log && Tiles(leaves, c.l, c.r)
    ensures s.master.total == Sum(leaves, TwoTrapsF(c.p))
    ensures forall x :: x in leaves ==> -c.p.tol <= Gap(c.p, x.0, x.1) <= c.p.tol
  {
    hide Runs, StartOf, Sum, Area, Gap, TwoTraps, LeavesUpTo, Tiles;
    var n := workers + 1;
    FarmRefinesSequential(c, workers, actions, s);
    LeavesTileTheRange(c, workers, actions, s);
    CompositeTasks(c, n, n);
    assert InitialTasks(c, n)[..n] == InitialTasks(c, n);
    leaves := LeavesUpTo(c, n, n);
  }
}
