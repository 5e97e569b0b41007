/**
 Forward and back substitution on the factors: the result solves the original system, it is
 the only solution, and the method gets through exactly on the matrices that have no kernel.
 */
module PluSolve {
  import opened Base
  import opened Plu

  type Vector = seq<real>

  // u[lo..] times v[lo..], from the high end down.
  function Tail(u: Vector, v: Vector, lo: nat): real
    requires |u| == |v| && lo <= |u|
    decreases |u| - lo
  {
    if lo == |u| then 0.0 else Tail(u, v, lo + 1) + u[lo] * v[lo]
  }

  // The first m products of two vectors.
  function Head(u: Vector, v: Vector, m: nat): real
    requires m <= |u| && m <= |v|
  {
    if m == 0 then 0.0 else Head(u, v, m - 1) + u[m - 1] * v[m - 1]
  }

  function Dot(u: Vector, v: Vector): real
    requires |u| == |v|
  {
    Tail(u, v, 0)
  }

  lemma {:induction false} TailSame(u: Vector, v: Vector, v': Vector, lo: nat)
    requires |u| == |v| == |v'| && lo <= |u|
    requires forall c :: lo <= c < |u| ==> v[c] == v'[c]
    ensures Tail(u, v, lo) == Tail(u, v', lo)
    decreases |u| - lo
  {
    if lo < |u| {
      TailSame(u, v, v', lo + 1);
    }
  }

  lemma {:induction false} TailZero(u: Vector, v: Vector, lo: nat)
    requires |u| == |v| && lo <= |u|
    requires forall c :: lo <= c < |u| ==> v[c] == 0.0
    ensures Tail(u, v, lo) == 0.0
    decreases |u| - lo
  {
    if lo < |u| {
      TailZero(u, v, lo + 1);
      assert u[lo] * v[lo] == 0.0;
    }
  }

  lemma {:induction false} HeadSame(u: Vector, v: Vector, v': Vector, m: nat)
    requires m <= |u| && m <= |v| && m <= |v'|
    requires forall c :: 0 <= c < m ==> v[c] == v'[c]
    ensures Head(u, v, m) == Head(u, v', m)
    decreases m
  {
    if m > 0 {
      HeadSame(u, v, v', m - 1);
    }
  }

  lemma {:induction false} HeadZero(u: Vector, v: Vector, m: nat)
    requires m <= |u| && m <= |v|
    requires forall c :: 0 <= c < m ==> v[c] == 0.0
    ensures Head(u, v, m) == 0.0
    decreases m
  {
    if m > 0 {
      HeadZero(u, v, m - 1);
      assert u[m - 1] * v[m - 1] == 0.0;
    }
  }

  // ----- rows of the original in terms of the factors -----

  // Row k of U times v.
  function UDot(w: Matrix, k: nat, v: Vector): real
    requires Square(w, |w|) && |v| == |w| && k < |w|
  {
    Tail(w[k], v, k)
  }

  // U times v.
  function UTimes(w: Matrix, v: Vector): (z: Vector)
    requires Square(w, |w|) && |v| == |w|
    ensures |z| == |w|
  {
    seq(|w|, k requires 0 <= k < |w| => UDot(w, k, v))
  }

  // The last columns, from lo on, of the first m terms of row i times v.
  function MixTail(w: Matrix, i: nat, m: nat, v: Vector, lo: nat): real
    requires Square(w, |w|) && |v| == |w| && i < |w| && m <= |w| && lo <= |w|
    decreases |w| - lo
  {
    if lo == |w| then 0.0 else MixTail(w, i, m, v, lo + 1) + Mix(w, i, m, lo) * v[lo]
  }

  function UpperTail(w: Matrix, k: nat, v: Vector, lo: nat): real
    requires Square(w, |w|) && |v| == |w| && k < |w| && lo <= |w|
    decreases |w| - lo
  {
    if lo == |w| then 0.0 else UpperTail(w, k, v, lo + 1) + Upper(w, k, lo) * v[lo]
  }

  lemma {:induction false} UpperTailIs(w: Matrix, k: nat, v: Vector, lo: nat)
    requires Square(w, |w|) && |v| == |w| && k < |w| && lo <= |w|
    ensures UpperTail(w, k, v, lo) == Tail(w[k], v, if lo < k then k else lo)
    decreases |w| - lo
  {
    if lo < |w| {
      UpperTailIs(w, k, v, lo + 1);
    }
  }

  lemma Spread(a: real, f: real, u: real, v: real)
    ensures (a + f * u) * v == a * v + f * (u * v)
  {
  }

  lemma {:induction false} MixTailStep(w: Matrix, i: nat, m: nat, v: Vector, lo: nat)
    requires Square(w, |w|) && |v| == |w| && i < |w| && 0 < m <= |w| && lo <= |w|
    ensures MixTail(w, i, m, v, lo) == MixTail(w, i, m - 1, v, lo) + w[i][m - 1] * UpperTail(w, m - 1, v, lo)
    decreases |w| - lo
  {
    if lo < |w| {
      MixTailStep(w, i, m, v, lo + 1);
      Spread(Mix(w, i, m - 1, lo), w[i][m - 1], Upper(w, m - 1, lo), v[lo]);
      assert w[i][m - 1] * UpperTail(w, m - 1, v, lo)
          == w[i][m - 1] * UpperTail(w, m - 1, v, lo + 1) + w[i][m - 1] * (Upper(w, m - 1, lo) * v[lo]);
    }
  }

  lemma {:induction false} MixTailIs(w: Matrix, i: nat, m: nat, v: Vector)
    requires Square(w, |w|) && |v| == |w| && i < |w| && m <= |w|
    ensures MixTail(w, i, m, v, 0) == Head(w[i], UTimes(w, v), m)
    decreases m
  {
    if m == 0 {
      MixTailZero(w, i, v, 0);
    } else {
      MixTailStep(w, i, m, v, 0);
      MixTailIs(w, i, m - 1, v);
      UpperTailIs(w, m - 1, v, 0);
    }
  }

  lemma {:induction false} MixTailZero(w: Matrix, i: nat, v: Vector, lo: nat)
    requires Square(w, |w|) && |v| == |w| && i < |w| && lo <= |w|
    ensures MixTail(w, i, 0, v, lo) == 0.0
    decreases |w| - lo
  {
    if lo < |w| {
      MixTailZero(w, i, v, lo + 1);
    }
  }

  lemma {:induction false} EntryTail(w: Matrix, i: nat, m: nat, row: Vector, v: Vector, lo: nat)
    requires Square(w, |w|) && |v| == |w| == |row| && i < |w| && m <= |w| && lo <= |w|
    requires forall c :: 0 <= c < |w| ==> row[c] == Entry(w, i, m, c)
    ensures Tail(row, v, lo) == MixTail(w, i, m, v, lo) + Tail(w[i], v, if lo < m then m else lo)
    decreases |w| - lo
  {
    hide Mix;
    if lo < |w| {
      EntryTail(w, i, m, row, v, lo + 1);
      assert row[lo] == Mix(w, i, m, lo) + (if lo >= m then w[i][lo] else 0.0);
      if lo >= m {
        Spread(Mix(w, i, m, lo), 1.0, w[i][lo], v[lo]);
      }
    }
  }

  // A row of the original times v: the multipliers times U v, and what is left of the row.
  lemma RowTimes(a: Matrix, s: Factors, j: nat, i: nat, v: Vector)
    requires Tracks(a, s, j) && i < |a| && |v| == |a|
    ensures
      var m := Min(i, j);
      Dot(a[s.perm[i]], v) == Head(s.w[i], UTimes(s.w, v), m) + Tail(s.w[i], v, m)
  {
    PermutationBounds(s.perm);
    hide Mix, Entry, Permutation;
    var m := Min(i, j);
    assert forall c :: 0 <= c < |a| ==> Entry(s.w, i, Min(i, j), c) == a[s.perm[i]][c];
    EntryTail(s.w, i, m, a[s.perm[i]], v, 0);
    MixTailIs(s.w, i, m, v);
  }

  // ----- substitution -----

  // The first m entries of the y with L y = b.
  function Forward(w: Matrix, b: Vector, m: nat): (y: Vector)
    requires Square(w, |w|) && |b| == |w| && m <= |w|
    ensures |y| == m
  {
    if m == 0 then []
    else
      var y := Forward(w, b, m - 1);
      y + [b[m - 1] - Head(w[m - 1], y, m - 1)]
  }

  lemma {:induction false} ForwardPrefix(w: Matrix, b: Vector, m: nat, n: nat)
    requires Square(w, |w|) && |b| == |w| && m <= n <= |w|
    ensures Forward(w, b, n)[..m] == Forward(w, b, m)
    decreases n
  {
    if m < n {
      ForwardPrefix(w, b, m, n - 1);
      assert Forward(w, b, n)[..m] == Forward(w, b, n - 1)[..m];
    } else {
      assert Forward(w, b, n)[..m] == Forward(w, b, n);
    }
  }

  lemma ForwardAt(w: Matrix, b: Vector, i: nat)
    requires Square(w, |w|) && |b| == |w| && i < |w|
    ensures Forward(w, b, |w|)[i] == b[i] - Head(w[i], Forward(w, b, |w|), i)
  {
    var y := Forward(w, b, |w|);
    ForwardPrefix(w, b, i + 1, |w|);
    ForwardPrefix(w, b, i, i + 1);
    assert y[i] == y[..i + 1][i];
    var y0 := Forward(w, b, i);
    assert forall c :: 0 <= c < i ==> y0[c] == y[..i + 1][..i][c];
    HeadSame(w[i], y0, y, i);
  }

  predicate Pivots(w: Matrix) {
    Square(w, |w|) && forall k :: 0 <= k < |w| ==> w[k][k] != 0.0
  }

  function Zeros(n: nat): Vector {
    seq(n, i requires 0 <= i < n => 0.0)
  }

  // The entries from i on of the x with U x = y, zeros before them.
  function Backward(w: Matrix, y: Vector, i: nat): (x: Vector)
    requires Pivots(w) && |y| == |w| && i <= |w|
    ensures |x| == |w|
    decreases |w| - i
  {
    if i == |w| then Zeros(|w|)
    else
      var x := Backward(w, y, i + 1);
      x[i := Over(y[i] - Tail(w[i], x, i + 1), w[i][i])]
  }

  lemma {:induction false} BackwardSolves(w: Matrix, y: Vector, i: nat)
    requires Pivots(w) && |y| == |w| && i <= |w|
    ensures forall k :: i <= k < |w| ==> UDot(w, k, Backward(w, y, i)) == y[k]
    decreases |w| - i
  {
    hide Over;
    if i < |w| {
      BackwardSolves(w, y, i + 1);
      var x, x' := Backward(w, y, i + 1), Backward(w, y, i);
      forall k | i <= k < |w|
        ensures UDot(w, k, x') == y[k]
      {
        if k > i {
          TailSame(w[k], x, x', k);
        } else {
          TailSame(w[i], x, x', i + 1);
          var q := Over(y[i] - Tail(w[i], x, i + 1), w[i][i]);
          Reduced(y[i] - Tail(w[i], x, i + 1), w[i][i]);
          assert x'[i] == q && w[i][i] * q == q * w[i][i];
        }
      }
    }
  }

  // U x = y has one solution.
  lemma {:induction false} BackwardOnly(w: Matrix, y: Vector, x: Vector, i: nat)
    requires Pivots(w) && |y| == |w| == |x| && i <= |w|
    requires forall k :: i <= k < |w| ==> UDot(w, k, x) == y[k]
    ensures forall c :: i <= c < |w| ==> x[c] == Backward(w, y, i)[c]
    decreases |w| - i
  {
    hide Over;
    if i < |w| {
      BackwardOnly(w, y, x, i + 1);
      var x' := Backward(w, y, i + 1);
      TailSame(w[i], x, x', i + 1);
      assert UDot(w, i, x) == y[i];
      OneQuotient(y[i] - Tail(w[i], x', i + 1), w[i][i], x[i]);
    }
  }

  lemma OneQuotient(p: real, d: real, q: real)
    requires d != 0.0 && d * q == p
    ensures Over(p, d) == q
  {
  }

  // P times b.
  function Permuted(b: Vector, perm: seq<nat>): (r: Vector)
    requires |b| == |perm| && forall i :: 0 <= i < |perm| ==> perm[i] < |perm|
    ensures |r| == |b|
  {
    seq(|b|, i requires 0 <= i < |b| => b[perm[i]])
  }

  // substituicao: L y = P b, then U x = y. None stands for a division by a zero last pivot.
  function Substituicao(s: Factors, b: Vector): (x: Option<Vector>)
    requires Shaped(s, |s.w|) && |b| == |s.w| && Permutation(s.perm)
    ensures x.Some? ==> |x.value| == |b|
  {
    if Pivots(s.w) then Some(Backward(s.w, Forward(s.w, Permuted(b, s.perm), |b|), 0)) else None
  }

  // ----- correctness -----

  ghost predicate Solves(a: Matrix, b: Vector, x: Vector)
    requires Square(a, |a|) && |a| == |b|
  {
    |x| == |a| && forall r :: 0 <= r < |a| ==> Dot(a[r], x) == b[r]
  }

  // U x is y exactly when every row of the original agrees.
  lemma SolvesIffUpper(a: Matrix, s: Factors, b: Vector, x: Vector)
    requires a != [] && Tracks(a, s, |a| - 1) && |b| == |a| == |x|
    ensures
      var y := Forward(s.w, Permuted(b, s.perm), |a|);
      Solves(a, b, x) <==> forall k :: 0 <= k < |a| ==> UDot(s.w, k, x) == y[k]
  {
    hide Forward, Entry, Tail, Head, UDot, Dot;
    var y := Forward(s.w, Permuted(b, s.perm), |a|);
    if forall k :: 0 <= k < |a| ==> UDot(s.w, k, x) == y[k] {
      UpperSuffices(a, s, b, x);
    }
    if Solves(a, b, x) {
      UpperFollows(a, s, b, x, |a|);
    }
  }

  lemma UpperSuffices(a: Matrix, s: Factors, b: Vector, x: Vector)
    requires a != [] && Tracks(a, s, |a| - 1) && |b| == |a| == |x|
    requires var y := Forward(s.w, Permuted(b, s.perm), |a|); forall k :: 0 <= k < |a| ==> UDot(s.w, k, x) == y[k]
    ensures Solves(a, b, x)
  {
    hide Forward, Entry, UDot, Dot;
    forall r | 0 <= r < |a|
      ensures Dot(a[r], x) == b[r]
    {
      assert r in s.perm;
      var i :| 0 <= i < |a| && s.perm[i] == r;
      RowSuffices(a, s, b, x, i);
    }
  }

  lemma RowSuffices(a: Matrix, s: Factors, b: Vector, x: Vector, i: nat)
    requires a != [] && Tracks(a, s, |a| - 1) && |b| == |a| == |x| && i < |a|
    requires var y := Forward(s.w, Permuted(b, s.perm), |a|); forall k :: 0 <= k < |a| ==> UDot(s.w, k, x) == y[k]
    ensures Dot(a[s.perm[i]], x) == b[s.perm[i]]
  {
    hide Forward, Entry, Tail, Head;
    var pb := Permuted(b, s.perm);
    var y := Forward(s.w, pb, |a|);
    RowTimes(a, s, |a| - 1, i, x);
    HeadSame(s.w[i], UTimes(s.w, x), y, i);
    ForwardAt(s.w, pb, i);
    assert pb[i] == b[s.perm[i]];
    assert UDot(s.w, i, x) == y[i];
  }

  lemma {:induction false} UpperFollows(a: Matrix, s: Factors, b: Vector, x: Vector, m: nat)
    requires a != [] && Tracks(a, s, |a| - 1) && |b| == |a| && m <= |a| && Solves(a, b, x)
    ensures forall k :: 0 <= k < m ==> UDot(s.w, k, x) == Forward(s.w, Permuted(b, s.perm), |a|)[k]
    decreases m
  {
    hide Forward, Entry;
    if m > 0 {
      UpperFollows(a, s, b, x, m - 1);
      var pb := Permuted(b, s.perm);
      var y := Forward(s.w, pb, |a|);
      RowTimes(a, s, |a| - 1, m - 1, x);
      HeadSame(s.w[m - 1], UTimes(s.w, x), y, m - 1);
      ForwardAt(s.w, pb, m - 1);
      assert Dot(a[s.perm[m - 1]], x) == b[s.perm[m - 1]] == pb[m - 1];
    }
  }

  // With every pivot nonzero, x solves the original system and nothing else does.
  lemma SolutionIsExact(a: Matrix, b: Vector)
    requires Square(a, |a|) && a != [] && |b| == |a|
    requires Fatoracao(a).Some? && Pivots(Fatoracao(a).value.w)
    ensures Permutation(Fatoracao(a).value.perm)
    ensures Substituicao(Fatoracao(a).value, b).Some?
    ensures forall x :: Solves(a, b, x) <==> x == Substituicao(Fatoracao(a).value, b).value
  {
    StagesTrack(a, |a| - 1);
    assert Tracks(a, Fatoracao(a).value, |a| - 1);
    hide Fatoracao, Forward, Backward, UDot, Permuted;
    var s := Fatoracao(a).value;
    assert Permutation(s.perm);
    var y := Forward(s.w, Permuted(b, s.perm), |a|);
    var best := Backward(s.w, y, 0);
    BackwardSolves(s.w, y, 0);
    SolvesIffUpper(a, s, b, best);
    forall x | Solves(a, b, x)
      ensures x == best
    {
      SolvesIffUpper(a, s, b, x);
      BackwardOnly(s.w, y, x, 0);
    }
  }

  // ----- exactly when the method gets through -----

  // Only the zero vector is sent to zero.
  ghost predicate Regular(a: Matrix)
    requires Square(a, |a|)
  {
    forall v :: Solves(a, Zeros(|a|), v) ==> v == Zeros(|a|)
  }

  // With column j zero from the diagonal down: the entries from k on of a kernel vector.
  function Kernel(w: Matrix, j: nat, k: nat): (v: Vector)
    requires Square(w, |w|) && k <= j < |w| && forall i :: 0 <= i < j ==> w[i][i] != 0.0
    ensures |v| == |w| && v[j] == 1.0
    decreases j - k
  {
    if k == j then Zeros(|w|)[j := 1.0]
    else
      var v := Kernel(w, j, k + 1);
      v[k := Over(0.0 - Tail(w[k], v, k + 1), w[k][k])]
  }

  lemma {:induction false} KernelFacts(w: Matrix, j: nat, k: nat)
    requires Square(w, |w|) && k <= j < |w| && forall i :: 0 <= i < j ==> w[i][i] != 0.0
    ensures forall i :: k <= i < j ==> UDot(w, i, Kernel(w, j, k)) == 0.0
    ensures forall c :: j < c < |w| ==> Kernel(w, j, k)[c] == 0.0
    decreases j - k
  {
    hide Over;
    if k < j {
      KernelFacts(w, j, k + 1);
      var v, v' := Kernel(w, j, k + 1), Kernel(w, j, k);
      forall i | k <= i < j
        ensures UDot(w, i, v') == 0.0
      {
        if i > k {
          assert UDot(w, i, v) == 0.0;
          TailSame(w[i], v, v', i);
        } else {
          TailSame(w[k], v, v', k + 1);
          var q := Over(0.0 - Tail(w[k], v, k + 1), w[k][k]);
          Reduced(0.0 - Tail(w[k], v, k + 1), w[k][k]);
          assert v'[k] == q && w[k][k] * q == q * w[k][k];
        }
      }
    }
  }

  // A column that is zero from the diagonal down shows a kernel of the original.
  lemma StuckHasKernel(a: Matrix, s: Factors, j: nat)
    requires Tracks(a, s, j) && j < |a|
    requires forall i :: j <= i < |a| ==> s.w[i][j] == 0.0
    ensures !Regular(a)
  {
    hide Entry, Kernel;
    var w := s.w;
    var v := Kernel(w, j, 0);
    KernelFacts(w, j, 0);
    forall r | 0 <= r < |a|
      ensures Dot(a[r], v) == 0.0
    {
      assert r in s.perm;
      var i :| 0 <= i < |a| && s.perm[i] == r;
      RowTimes(a, s, j, i, v);
      HeadZero(w[i], UTimes(w, v), Min(i, j));
      if i >= j {
        TailZero(w[i], v, j + 1);
        assert w[i][j] == 0.0;
      } else {
        assert UDot(w, i, v) == 0.0;
      }
    }
    assert Solves(a, Zeros(|a|), v);
    assert v[j] != Zeros(|a|)[j];
  }

  lemma {:induction false} StopHasKernel(a: Matrix, j: nat)
    requires Square(a, |a|) && j <= |a| && Stages(a, j).None?
    ensures !Regular(a)
    decreases j
  {
    hide Tracks, Regular, Stage;
    if j > 0 {
      if Stages(a, j - 1).None? {
        StopHasKernel(a, j - 1);
      } else {
        StagesTrack(a, j - 1);
        var s := Stages(a, j - 1).value;
        StageTracks(a, s, j - 1);
        StuckHasKernel(a, s, j - 1);
      }
    }
  }

  // All pivots but the last are nonzero once the elimination has got through.
  lemma ZeroLastPivot(a: Matrix)
    requires Square(a, |a|) && a != [] && Fatoracao(a).Some? && !Pivots(Fatoracao(a).value.w)
    ensures !Regular(a)
  {
    hide Regular, Entry;
    StagesTrack(a, |a| - 1);
    StuckHasKernel(a, Fatoracao(a).value, |a| - 1);
  }

  lemma PivotsMeanRegular(a: Matrix)
    requires Square(a, |a|) && a != [] && Fatoracao(a).Some? && Pivots(Fatoracao(a).value.w)
    ensures Regular(a)
  {
    hide Solves, Fatoracao, Pivots, Substituicao;
    SolutionIsExact(a, Zeros(|a|));
    ZerosSolve(a);
  }

  // No division by zero happens exactly when the matrix has no kernel.
  lemma GetsThroughIffRegular(a: Matrix)
    requires Square(a, |a|) && a != []
    ensures Fatoracao(a).Some? && Pivots(Fatoracao(a).value.w) <==> Regular(a)
  {
    hide Regular, Pivots;
    if Fatoracao(a).None? {
      StopHasKernel(a, |a| - 1);
    } else if Pivots(Fatoracao(a).value.w) {
      PivotsMeanRegular(a);
    } else {
      ZeroLastPivot(a);
    }
  }

  lemma ZerosSolve(a: Matrix)
    requires Square(a, |a|)
    ensures Solves(a, Zeros(|a|), Zeros(|a|))
  {
    forall r | 0 <= r < |a|
      ensures Dot(a[r], Zeros(|a|)) == 0.0
    {
      TailZero(a[r], Zeros(|a|), 0);
    }
  }
}
