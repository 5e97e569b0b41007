/**
 Factoring and substitution as the programs run them: rows swapped and overwritten in place
 in two arrays, right-hand sides updated column by column. Proved against Plu and PluSolve.
 */
module PluProgram {
  import opened Base
  import opened Plu
  import opened PluSolve

  ghost function Row(a: array2<real>, i: nat): (r: seq<real>)
    requires i < a.Length0
    reads a
    ensures |r| == a.Length1
  {
    seq(a.Length1, c requires 0 <= c < a.Length1 reads a => a[i, c])
  }

  ghost function View(a: array2<real>): (m: Matrix)
    reads a
    ensures |m| == a.Length0
    ensures forall i :: 0 <= i < a.Length0 ==> |m[i]| == a.Length1
    ensures forall i, c :: 0 <= i < a.Length0 && 0 <= c < a.Length1 ==> m[i][c] == a[i, c]
  {
    seq(a.Length0, i requires 0 <= i < a.Length0 reads a => Row(a, i))
  }

  // P has a single one in row i, in column perm[i].
  ghost predicate IsPermutation(p: Matrix, perm: seq<nat>) {
    && |p| == |perm| && (forall i :: 0 <= i < |p| ==> |p[i]| == |perm|)
    && forall i, c :: 0 <= i < |p| && 0 <= c < |p[i]| ==> p[i][c] == if c == perm[i] then 1.0 else 0.0
  }

  lemma MatrixEqual(m: Matrix, m': Matrix)
    requires |m| == |m'| && forall i :: 0 <= i < |m| ==> |m[i]| == |m'[i]|
    requires forall i, c :: 0 <= i < |m| && 0 <= c < |m[i]| ==> m[i][c] == m'[i][c]
    ensures m == m'
  {
    assert forall i :: 0 <= i < |m| ==> m[i] == m'[i];
  }

  method FindPivot(a: array2<real>, j: nat) returns (p: nat)
    requires j < a.Length0 == a.Length1
    ensures p == Pivot(View(a), j) && j <= p < a.Length0
    ensures forall i :: j <= i < a.Length0 ==> NoLarger(a[i, j], a[p, j])
    ensures forall i :: j <= i < p ==> Smaller(a[i, j], a[p, j])
  {
    PivotIsFirstLargest(View(a), j);
    p := j;
    for k := j + 1 to a.Length0
      invariant j <= p < k
      invariant PivotFrom(View(a), j, p, k) == Pivot(View(a), j)
    {
      var x := if a[k, j] < 0.0 then -a[k, j] else a[k, j];
      var y := if a[p, j] < 0.0 then -a[p, j] else a[p, j];
      if x > y {
        p := k;
      }
    }
  }

  method Swap(a: array2<real>, j: nat, p: nat)
    requires j < a.Length0 && p < a.Length0
    modifies a
    ensures View(a) == SwapRows(old(View(a)), j, p)
  {
    ghost var w := View(a);
    for k := 0 to a.Length1
      invariant forall i, c :: 0 <= i < a.Length0 && 0 <= c < a.Length1 ==>
                  a[i, c] == if c < k then SwapRows(w, j, p)[i][c] else w[i][c]
    {
      var temp := a[p, k];
      a[p, k] := a[j, k];
      a[j, k] := temp;
    }
    MatrixEqual(View(a), SwapRows(w, j, p));
  }

  method Reduce(a: array2<real>, j: nat)
    requires j < a.Length0 == a.Length1 && a[j, j] != 0.0
    modifies a
    ensures View(a) == Eliminate(old(View(a)), j)
  {
    ghost var w := View(a);
    var n := a.Length0;
    for i := j + 1 to n
      invariant forall r, c :: 0 <= r < n && 0 <= c < n ==>
                  a[r, c] == if j < r < i then ReducedRow(w, j, r)[c] else w[r][c]
    {
      var f := a[i, j] / a[j, j];
      a[i, j] := f;
      for k := j + 1 to n
        invariant forall r, c :: 0 <= r < n && 0 <= c < n && r != i ==>
                    a[r, c] == if j < r < i then ReducedRow(w, j, r)[c] else w[r][c]
        invariant forall c :: 0 <= c < n ==> a[i, c] == if c < k then ReducedRow(w, j, i)[c] else w[i][c]
      {
        a[i, k] := a[i, k] - a[j, k] * f;
      }
    }
    MatrixEqual(View(a), Eliminate(w, j));
  }

  // The identity matrix.
  method StartPermutation(n: nat) returns (p: array2<real>)
    ensures fresh(p) && p.Length0 == p.Length1 == n && IsPermutation(View(p), Identity(n))
  {
    p := new real[n, n];
    for i := 0 to n
      invariant forall r, c :: 0 <= r < i && 0 <= c < n ==> p[r, c] == if c == r then 1.0 else 0.0
    {
      for j := 0 to n
        invariant forall r, c :: 0 <= r < i && 0 <= c < n ==> p[r, c] == if c == r then 1.0 else 0.0
        invariant forall c :: 0 <= c < j ==> p[i, c] == if c == i then 1.0 else 0.0
      {
        if i != j {
          p[i, j] := 0.0;
        } else {
          p[i, j] := 1.0;
        }
      }
    }
  }

  // One column, in both arrays; false stands for a division by a zero pivot.
  method StageInPlace(a: array2<real>, p: array2<real>, j: nat, ghost perm: seq<nat>)
      returns (ok: bool, ghost perm': seq<nat>)
    requires j < a.Length0 == a.Length1 == p.Length0 == p.Length1 && a != p
    requires IsPermutation(View(p), perm)
    modifies a, p
    ensures |perm'| == |perm| && IsPermutation(View(p), perm')
    ensures
      var r := Stage(Factors(old(View(a)), perm), j);
      (ok <==> r.Some?) && (ok ==> r == Some(Factors(View(a), perm')))
  {
    assert |perm| == a.Length0;
    hide Pivot, Eliminate, IsPermutation, SwapRows;
    ghost var q := View(p);
    var k := FindPivot(a, j);
    Swap(a, j, k);
    Swap(p, j, k);
    perm' := SwapRows(perm, j, k);
    SwapKeepsPermutation(q, perm, j, k);
    assert View(a)[j][j] == a[j, j];
    ok := a[j, j] != 0.0;
    if ok {
      Reduce(a, j);
    }
  }

  // False stands for a division by a zero pivot.
  method FactorInPlace(a: array2<real>) returns (ok: bool, p: array2<real>, ghost perm: seq<nat>)
    requires 0 < a.Length0 == a.Length1
    modifies a
    ensures fresh(p) && p.Length0 == p.Length1 == a.Length0
    ensures ok <==> Fatoracao(old(View(a))).Some?
    ensures ok ==> Fatoracao(old(View(a))) == Some(Factors(View(a), perm)) && IsPermutation(View(p), perm)
    ensures ok ==> forall i, c :: 0 <= c < i < a.Length0 ==> -1.0 <= a[i, c] <= 1.0
  {
    hide Stage, IsPermutation;
    var n := a.Length0;
    ghost var a0 := View(a);
    p := StartPermutation(n);
    perm := Identity(n);
    for j := 0 to n - 1
      invariant fresh(p) && |perm| == n
      invariant Stages(a0, j) == Some(Factors(View(a), perm)) && IsPermutation(View(p), perm)
    {
      ok, perm := StageInPlace(a, p, j, perm);
      if !ok {
        StopsHere(a0, j + 1, n - 1);
        return;
      }
    }
    ok := true;
    MultipliersAreSmall(a0);
  }

  lemma SwapKeepsPermutation(p: Matrix, perm: seq<nat>, j: nat, k: nat)
    requires IsPermutation(p, perm) && j < |p| && k < |p|
    ensures IsPermutation(SwapRows(p, j, k), SwapRows(perm, j, k))
  {
  }

  lemma {:induction false} StopsHere(a: Matrix, j: nat, m: nat)
    requires Square(a, |a|) && j <= m <= |a| && Stages(a, j).None?
    ensures Stages(a, m).None?
    decreases m
  {
    hide Stage;
    if j < m {
      StopsHere(a, j, m - 1);
    }
  }

  // mat_multv.
  method MultV(a: array2<real>, v: array<real>, w: array<real>)
    requires v.Length == a.Length1 && w.Length == a.Length0 && v != w
    modifies w
    ensures forall i :: 0 <= i < a.Length0 ==> w[i] == Head(View(a)[i], v[..], a.Length1)
  {
    for i := 0 to a.Length0
      invariant v[..] == old(v[..])
      invariant forall r :: 0 <= r < i ==> w[r] == Head(View(a)[r], v[..], a.Length1)
    {
      w[i] := 0.0;
      for j := 0 to a.Length1
        invariant forall r :: 0 <= r < i ==> w[r] == Head(View(a)[r], v[..], a.Length1)
        invariant w[i] == Head(View(a)[i], v[..], j)
      {
        w[i] := w[i] + v[j] * a[i, j];
      }
    }
  }

  // A row with a single one picks an entry out of a vector.
  lemma {:induction false} UnitRow(u: Vector, v: Vector, at: nat, m: nat)
    requires m <= |u| == |v| && at < |u|
    requires forall c :: 0 <= c < |u| ==> u[c] == if c == at then 1.0 else 0.0
    ensures Head(u, v, m) == if at < m then v[at] else 0.0
    decreases m
  {
    if m > 0 {
      UnitRow(u, v, at, m - 1);
    }
  }

  lemma TimesPermutation(p: Matrix, perm: seq<nat>, b: Vector, i: nat)
    requires IsPermutation(p, perm) && |b| == |perm| && i < |perm|
    requires forall k :: 0 <= k < |perm| ==> perm[k] < |perm|
    ensures Head(p[i], b, |b|) == Permuted(b, perm)[i]
  {
    UnitRow(p[i], b, perm[i], |b|);
  }

  // Entry i of the right-hand side after the first m columns of L.
  function Partial(w: Matrix, b: Vector, i: nat, m: nat): real
    requires Square(w, |w|) && |b| == |w| && i < |w| && m <= |w|
  {
    b[i] - Head(w[i], Forward(w, b, m), m)
  }

  lemma PartialStart(w: Matrix, b: Vector)
    requires Square(w, |w|) && |b| == |w|
    ensures forall i :: 0 <= i < |w| ==> Partial(w, b, i, 0) == b[i]
  {
  }

  lemma PartialStep(w: Matrix, b: Vector, i: nat, j: nat)
    requires Square(w, |w|) && |b| == |w| && j < i < |w|
    ensures Partial(w, b, i, j + 1) == Partial(w, b, i, j) - Partial(w, b, j, j) * w[i][j]
  {
    HeadSame(w[i], Forward(w, b, j), Forward(w, b, j + 1), j);
    assert Forward(w, b, j + 1)[j] == Partial(w, b, j, j);
  }

  lemma PartialDone(w: Matrix, b: Vector, i: nat)
    requires Square(w, |w|) && |b| == |w| && i < |w|
    ensures Forward(w, b, |w|)[i] == Partial(w, b, i, i)
  {
    ForwardPrefix(w, b, i + 1, |w|);
    assert Forward(w, b, |w|)[i] == Forward(w, b, |w|)[..i + 1][i];
  }

  // L y = P b, one column of L at a time, in place.
  method ForwardInPlace(lu: array2<real>, pb: array<real>)
    requires lu.Length0 == lu.Length1 == pb.Length
    modifies pb
    ensures pb[..] == Forward(View(lu), old(pb[..]), pb.Length)
  {
    hide Partial, Forward;
    var n := pb.Length;
    ghost var w, b := View(lu), pb[..];
    PartialStart(w, b);
    var j := 0;
    while j < n - 1
      invariant 0 <= j <= n && (n > 0 ==> j <= n - 1)
      invariant forall i :: 0 <= i < n ==> pb[i] == Partial(w, b, i, Min(i, j))
    {
      for i := j + 1 to n
        invariant forall r :: 0 <= r < n ==> pb[r] == Partial(w, b, r, if j < r < i then j + 1 else Min(r, j))
      {
        PartialStep(w, b, i, j);
        assert w[i][j] == lu[i, j];
        pb[i] := pb[i] - pb[j] * lu[i, j];
      }
      j := j + 1;
    }
    forall i | 0 <= i < n
      ensures pb[i] == Forward(w, b, n)[i]
    {
      assert Min(i, j) == i;
      PartialDone(w, b, i);
    }
    assert pb[..] == Forward(w, b, n);
  }

  // U x = y, from the last row up.
  method BackwardInPlace(lu: array2<real>, y: array<real>, x: array<real>)
    requires lu.Length0 == lu.Length1 == y.Length == x.Length && x != y
    requires Pivots(View(lu))
    modifies x
    ensures x[..] == Backward(View(lu), y[..], 0)
  {
    var n := y.Length;
    ghost var w := View(lu);
    var i := n;
    while i > 0
      invariant 0 <= i <= n && y[..] == old(y[..])
      invariant forall c :: i <= c < n ==> x[c] == Backward(w, y[..], i)[c]
    {
      i := i - 1;
      ghost var done := Backward(w, y[..], i + 1);
      x[i] := y[i];
      var j := n - 1;
      while j > i
        invariant i <= j < n
        invariant forall c :: i < c < n ==> x[c] == done[c]
        invariant x[i] == y[i] - Tail(w[i], done, j + 1)
      {
        x[i] := x[i] - lu[i, j] * x[j];
        j := j - 1;
      }
      assert w[i][j] == lu[i, j];
      x[i] := x[i] / lu[i, j];
    }
    assert x[..] == Backward(w, y[..], 0);
  }

  method Solve(lu: array2<real>, p: array2<real>, b: array<real>, ghost perm: seq<nat>)
      returns (ok: bool, x: array<real>)
    requires 0 < lu.Length0 == lu.Length1 == p.Length0 == p.Length1 == b.Length
    requires Permutation(perm) && IsPermutation(View(p), perm)
    requires forall k :: 0 <= k < lu.Length0 - 1 ==> lu[k, k] != 0.0
    ensures fresh(x)
    ensures ok <==> Substituicao(Factors(View(lu), perm), b[..]).Some?
    ensures ok ==> Substituicao(Factors(View(lu), perm), b[..]) == Some(x[..])
  {
    var n := b.Length;
    x := new real[n];
    var pb := new real[n];
    MultV(p, b, pb);
    forall i | 0 <= i < n
      ensures pb[i] == Permuted(b[..], perm)[i]
    {
      TimesPermutation(View(p), perm, b[..], i);
    }
    assert pb[..] == Permuted(b[..], perm);
    ForwardInPlace(lu, pb);
    assert View(lu)[n - 1][n - 1] == lu[n - 1, n - 1];
    if lu[n - 1, n - 1] == 0.0 {
      return false, x;
    }
    BackwardInPlace(lu, pb, x);
    ok := true;
  }
}
