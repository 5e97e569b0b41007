/**
 Gaussian elimination with row pivoting over exact reals: one column at a time in place, and
 what the result says about the matrix it came from.
 */
module Plu {
  import opened Base

  type Matrix = seq<seq<real>>

  predicate Square(a: Matrix, n: nat) {
    |a| == n && forall i :: 0 <= i < n ==> |a[i]| == n
  }

  function Abs(r: real): real {
    if r < 0.0 then -r else r
  }

  function Over(p: real, q: real): real
    requires q != 0.0
  {
    p / q
  }

  // ----- one column -----

  // The row at or below j with the largest entry in column j; the first one on a tie.
  function PivotFrom(w: Matrix, j: nat, best: nat, k: nat): (p: nat)
    requires j < |w| && Square(w, |w|) && j <= best < k <= |w|
    ensures j <= p < |w|
    decreases |w| - k
  {
    if k == |w| then best
    else PivotFrom(w, j, if Abs(w[k][j]) > Abs(w[best][j]) then k else best, k + 1)
  }

  function Pivot(w: Matrix, j: nat): (p: nat)
    requires j < |w| && Square(w, |w|)
    ensures j <= p < |w|
  {
    PivotFrom(w, j, j, j + 1)
  }

  // |x| <= |y|, and |x| < |y|.
  predicate NoLarger(x: real, y: real) {
    -y <= x <= y || y <= x <= -y
  }

  predicate Smaller(x: real, y: real) {
    -y < x < y || y < x < -y
  }

  // No entry at or below the diagonal is larger, and none before it is as large.
  ghost predicate FirstLargest(w: Matrix, j: nat, p: nat)
    requires j <= p < |w| && Square(w, |w|)
  {
    && (forall i :: j <= i < |w| ==> NoLarger(w[i][j], w[p][j]))
    && (forall i :: j <= i < p ==> Smaller(w[i][j], w[p][j]))
  }

  lemma {:induction false} PivotFromLargest(w: Matrix, j: nat, best: nat, k: nat)
    requires j < |w| && Square(w, |w|) && j <= best < k <= |w|
    requires forall i :: j <= i < k ==> NoLarger(w[i][j], w[best][j])
    requires forall i :: j <= i < best ==> Smaller(w[i][j], w[best][j])
    ensures FirstLargest(w, j, PivotFrom(w, j, best, k))
    decreases |w| - k
  {
    if k < |w| {
      PivotFromLargest(w, j, if Abs(w[k][j]) > Abs(w[best][j]) then k else best, k + 1);
    }
  }

  // The pivot is the first row of the largest entry.
  lemma PivotIsFirstLargest(w: Matrix, j: nat)
    requires j < |w| && Square(w, |w|)
    ensures FirstLargest(w, j, Pivot(w, j))
  {
    PivotFromLargest(w, j, j, j + 1);
  }

  // A zero pivot means that the column is zero from the diagonal down.
  lemma ZeroPivot(w: Matrix, j: nat)
    requires j < |w| && Square(w, |w|) && w[Pivot(w, j)][j] == 0.0
    ensures forall i :: j <= i < |w| ==> w[i][j] == 0.0
  {
    PivotIsFirstLargest(w, j);
    hide Pivot;
    forall i | j <= i < |w|
      ensures w[i][j] == 0.0
    {
      assert NoLarger(w[i][j], w[Pivot(w, j)][j]);
    }
  }

  function SwapRows<T>(s: seq<T>, j: nat, p: nat): (r: seq<T>)
    requires j < |s| && p < |s|
    ensures |r| == |s|
  {
    s[j := s[p]][p := s[j]]
  }

  // Row i below the pivot row j: the multiplier in column j, the reduced entries after it.
  function ReducedRow(w: Matrix, j: nat, i: nat): (r: seq<real>)
    requires j < |w| && i < |w| && Square(w, |w|) && w[j][j] != 0.0
    ensures |r| == |w|
  {
    var f := Over(w[i][j], w[j][j]);
    seq(|w|, c requires 0 <= c < |w| => if c < j then w[i][c] else if c == j then f else w[i][c] - w[j][c] * f)
  }

  function Eliminate(w: Matrix, j: nat): (r: Matrix)
    requires j < |w| && Square(w, |w|) && w[j][j] != 0.0
    ensures Square(r, |w|)
  {
    seq(|w|, i requires 0 <= i < |w| => if i <= j then w[i] else ReducedRow(w, j, i))
  }

  // The matrix being factored, and for each of its rows the row of the original it came from.
  datatype Factors = Factors(w: Matrix, perm: seq<nat>)

  predicate Shaped(s: Factors, n: nat) {
    Square(s.w, n) && |s.perm| == n
  }

  // None stands for a division by a zero pivot.
  function Stage(s: Factors, j: nat): (r: Option<Factors>)
    requires j < |s.w| && Shaped(s, |s.w|)
    ensures r.Some? ==> Shaped(r.value, |s.w|)
  {
    var p := Pivot(s.w, j);
    var w := SwapRows(s.w, j, p);
    if w[j][j] == 0.0 then None else Some(Factors(Eliminate(w, j), SwapRows(s.perm, j, p)))
  }

  function Identity(n: nat): seq<nat> {
    seq(n, i requires 0 <= i < n => i)
  }

  // After the first j columns.
  function Stages(a: Matrix, j: nat): (r: Option<Factors>)
    requires Square(a, |a|) && j <= |a|
    ensures r.Some? ==> Shaped(r.value, |a|)
  {
    if j == 0 then Some(Factors(a, Identity(|a|)))
    else
      match Stages(a, j - 1)
      case None => None
      case Some(s) => Stage(s, j - 1)
  }

  // fatoracao: every column but the last.
  function Fatoracao(a: Matrix): (r: Option<Factors>)
    requires Square(a, |a|) && a != []
    ensures r.Some? ==> Shaped(r.value, |a|)
  {
    Stages(a, |a| - 1)
  }

  // ----- what is kept -----

  ghost predicate Permutation(perm: seq<nat>) {
    && (forall i :: 0 <= i < |perm| ==> perm[i] < |perm|)
    && (forall i, j :: 0 <= i < j < |perm| ==> perm[i] != perm[j])
    && (forall r :: 0 <= r < |perm| ==> r in perm)
  }

  lemma PermutationBounds(perm: seq<nat>)
    requires Permutation(perm)
    ensures forall i :: 0 <= i < |perm| ==> perm[i] < |perm|
  {
  }

  lemma SwapPermutes(perm: seq<nat>, j: nat, p: nat)
    requires Permutation(perm) && j < |perm| && p < |perm|
    ensures Permutation(SwapRows(perm, j, p))
  {
    var next := SwapRows(perm, j, p);
    assert forall i :: 0 <= i < |perm| ==> next[i] == perm[if i == j then p else if i == p then j else i];
    forall r | 0 <= r < |perm|
      ensures r in next
    {
      assert r in perm;
      var i :| 0 <= i < |perm| && perm[i] == r;
      assert next[if i == j then p else if i == p then j else i] == r;
    }
  }

  // The entries of U: nothing below the diagonal.
  function Upper(w: Matrix, k: nat, c: nat): real
    requires k < |w| && c < |w[k]|
  {
    if c >= k then w[k][c] else 0.0
  }

  // The first m terms of row i of L times column c of U.
  function Mix(w: Matrix, i: nat, m: nat, c: nat): real
    requires Square(w, |w|) && i < |w| && m <= |w| && c < |w|
  {
    if m == 0 then 0.0 else Mix(w, i, m - 1, c) + w[i][m - 1] * Upper(w, m - 1, c)
  }

  // The entry of the original the first m columns account for, and what is left of it.
  function Entry(w: Matrix, i: nat, m: nat, c: nat): real
    requires Square(w, |w|) && i < |w| && m <= |w| && c < |w|
  {
    Mix(w, i, m, c) + if c >= m then w[i][c] else 0.0
  }

  // Row i of the factors stands for row perm[i] of the original.
  ghost predicate Tracks(a: Matrix, s: Factors, j: nat) {
    && Square(a, |a|) && Shaped(s, |a|) && j <= |a| && Permutation(s.perm)
    && (forall k :: 0 <= k < j ==> s.w[k][k] != 0.0)
    && forall i, c :: 0 <= i < |a| && 0 <= c < |a| ==> Entry(s.w, i, Min(i, j), c) == a[s.perm[i]][c]
  }

  lemma {:induction false} MixSame(w: Matrix, i: nat, w': Matrix, i': nat, m: nat, c: nat)
    requires Square(w, |w|) && Square(w', |w|) && i < |w| && i' < |w| && m <= |w| && c < |w|
    requires forall k :: 0 <= k < m ==> w[i][k] == w'[i'][k] && w[k] == w'[k]
    ensures Mix(w, i, m, c) == Mix(w', i', m, c)
    decreases m
  {
    if m > 0 {
      MixSame(w, i, w', i', m - 1, c);
    }
  }

  lemma SwapTracks(a: Matrix, s: Factors, j: nat, p: nat)
    requires Tracks(a, s, j) && j <= p < |a|
    ensures Tracks(a, Factors(SwapRows(s.w, j, p), SwapRows(s.perm, j, p)), j)
  {
    hide Mix, Permutation;
    PermutationBounds(s.perm);
    var w, perm := SwapRows(s.w, j, p), SwapRows(s.perm, j, p);
    SwapPermutes(s.perm, j, p);
    PermutationBounds(perm);
    forall i, c | 0 <= i < |a| && 0 <= c < |a|
      ensures Entry(w, i, Min(i, j), c) == a[perm[i]][c]
    {
      var i' := if i == j then p else if i == p then j else i;
      assert w[i] == s.w[i'] && perm[i] == s.perm[i'] && Min(i, j) == Min(i', j);
      MixSame(s.w, i', w, i, Min(i, j), c);
      assert Entry(s.w, i', Min(i', j), c) == a[s.perm[i']][c];
    }
  }

  lemma Reduced(x: real, d: real)
    requires d != 0.0
    ensures Over(x, d) * d == x
  {
  }

  lemma EliminateTracks(a: Matrix, s: Factors, j: nat)
    requires Tracks(a, s, j) && j < |a| && s.w[j][j] != 0.0
    ensures Tracks(a, Factors(Eliminate(s.w, j), s.perm), j + 1)
  {
    hide Permutation, Over, Mix;
    PermutationBounds(s.perm);
    var w := Eliminate(s.w, j);
    forall i, c | 0 <= i < |a| && 0 <= c < |a|
      ensures Entry(w, i, Min(i, j + 1), c) == a[s.perm[i]][c]
    {
      assert Entry(s.w, i, Min(i, j), c) == a[s.perm[i]][c];
      MixSame(s.w, i, w, i, Min(i, j), c);
      if i > j {
        ReducedEntry(s.w, j, i, c);
      }
    }
  }

  lemma ReducedEntry(w: Matrix, j: nat, i: nat, c: nat)
    requires Square(w, |w|) && j < i < |w| && c < |w| && w[j][j] != 0.0
    ensures Entry(Eliminate(w, j), i, j + 1, c) == Entry(w, i, j, c)
  {
    hide Over;
    var w' := Eliminate(w, j);
    var f := Over(w[i][j], w[j][j]);
    MixSame(w, i, w', i, j, c);
    assert w'[i][j] == f && w'[j] == w[j];
    Reduced(w[i][j], w[j][j]);
    assert Mix(w', i, j + 1, c) == Mix(w, i, j, c) + f * Upper(w', j, c);
    if c > j {
      assert w'[i][c] == w[i][c] - w[j][c] * f;
    }
  }

  // Every column keeps the correspondence; a column that stops leaves a zero column behind.
  lemma StageTracks(a: Matrix, s: Factors, j: nat)
    requires Tracks(a, s, j) && j < |a|
    ensures Stage(s, j).Some? ==> Tracks(a, Stage(s, j).value, j + 1)
    ensures Stage(s, j).None? ==> forall i :: j <= i < |a| ==> s.w[i][j] == 0.0
  {
    assert Square(s.w, |a|) && Shaped(s, |a|);
    hide Tracks, Eliminate, Pivot;
    var p := Pivot(s.w, j);
    SwapTracks(a, s, j, p);
    var w := SwapRows(s.w, j, p);
    if w[j][j] != 0.0 {
      EliminateTracks(a, Factors(w, SwapRows(s.perm, j, p)), j);
    } else {
      ZeroPivot(s.w, j);
    }
  }

  lemma IdentityPermutes(n: nat)
    ensures Permutation(Identity(n))
  {
    forall r | 0 <= r < n
      ensures r in Identity(n)
    {
      assert Identity(n)[r] == r;
    }
  }

  lemma NothingTracks(a: Matrix)
    requires Square(a, |a|)
    ensures Tracks(a, Factors(a, Identity(|a|)), 0)
  {
    IdentityPermutes(|a|);
  }

  lemma {:induction false} StagesTrack(a: Matrix, j: nat)
    requires Square(a, |a|) && j <= |a|
    ensures Stages(a, j).Some? ==> Tracks(a, Stages(a, j).value, j)
    decreases j
  {
    hide Tracks;
    if j == 0 {
      NothingTracks(a);
    } else {
      StagesTrack(a, j - 1);
      if Stages(a, j - 1).Some? {
        StageTracks(a, Stages(a, j - 1).value, j - 1);
      }
    }
  }

  // ----- partial pivoting -----

  // The multipliers stored in the first j columns are at most one in absolute value.
  ghost predicate SmallMultipliers(w: Matrix, j: nat) {
    Square(w, |w|) && j <= |w| && forall i, c :: 0 <= c < j && c < i < |w| ==> -1.0 <= w[i][c] <= 1.0
  }

  lemma SmallQuotient(x: real, y: real)
    requires y != 0.0 && NoLarger(x, y)
    ensures -1.0 <= Over(x, y) <= 1.0
  {
    var q := Over(x, y);
    assert q * y == x;
    assert (q - 1.0) * y == x - y && (q + 1.0) * y == x + y;
  }

  lemma StageKeepsSmall(s: Factors, j: nat)
    requires j < |s.w| && Shaped(s, |s.w|) && SmallMultipliers(s.w, j) && Stage(s, j).Some?
    ensures SmallMultipliers(Stage(s, j).value.w, j + 1)
  {
    PivotIsFirstLargest(s.w, j);
    hide Pivot, Over;
    var p := Pivot(s.w, j);
    var w, r := SwapRows(s.w, j, p), Stage(s, j).value.w;
    forall i, c | 0 <= c < j + 1 && c < i < |r|
      ensures -1.0 <= r[i][c] <= 1.0
    {
      if c == j {
        SmallQuotient(w[i][j], w[j][j]);
      }
    }
  }

  lemma {:induction false} StagesKeepSmall(a: Matrix, j: nat)
    requires Square(a, |a|) && j <= |a| && Stages(a, j).Some?
    ensures SmallMultipliers(Stages(a, j).value.w, j)
    decreases j
  {
    hide SmallMultipliers, Stage;
    if j == 0 {
      NoMultipliers(a);
    } else {
      StagesKeepSmall(a, j - 1);
      StageKeepsSmall(Stages(a, j - 1).value, j - 1);
    }
  }

  lemma NoMultipliers(a: Matrix)
    requires Square(a, |a|)
    ensures SmallMultipliers(a, 0)
  {
  }

  // Row pivoting keeps every multiplier between -1 and 1.
  lemma MultipliersAreSmall(a: Matrix)
    requires Square(a, |a|) && a != [] && Fatoracao(a).Some?
    ensures forall i, c :: 0 <= c < i < |a| ==> -1.0 <= Fatoracao(a).value.w[i][c] <= 1.0
  {
    hide Stages;
    StagesKeepSmall(a, |a| - 1);
  }

  // ----- P * A == L * U -----

  // The entries of L: ones on the diagonal, nothing above it.
  function Lower(w: Matrix, i: nat, k: nat): real
    requires i < |w| && k < |w[i]|
  {
    if k < i then w[i][k] else if k == i then 1.0 else 0.0
  }

  // The first m terms of entry (i, c) of L * U.
  function Product(w: Matrix, i: nat, m: nat, c: nat): real
    requires Square(w, |w|) && i < |w| && m <= |w| && c < |w|
  {
    if m == 0 then 0.0 else Product(w, i, m - 1, c) + Lower(w, i, m - 1) * Upper(w, m - 1, c)
  }

  lemma {:induction false} ProductIsEntry(w: Matrix, i: nat, m: nat, c: nat)
    requires Square(w, |w|) && i < |w| && m <= |w| && c < |w|
    ensures Product(w, i, m, c) == if m <= i then Mix(w, i, m, c) else Entry(w, i, i, c)
    decreases m
  {
    if m > 0 {
      ProductIsEntry(w, i, m - 1, c);
    }
  }

  // When no pivot is zero, the factors multiply to the original with its rows permuted.
  lemma FactorsMultiply(a: Matrix)
    requires Square(a, |a|) && a != [] && Fatoracao(a).Some?
    ensures
      var s := Fatoracao(a).value;
      && Permutation(s.perm)
      && (forall k :: 0 <= k < |a| - 1 ==> s.w[k][k] != 0.0)
      && forall i, c :: 0 <= i < |a| && 0 <= c < |a| ==> Product(s.w, i, |a|, c) == a[s.perm[i]][c]
  {
    hide Entry, Product, Stages, Mix;
    StagesTrack(a, |a| - 1);
    var s := Fatoracao(a).value;
    forall i, c | 0 <= i < |a| && 0 <= c < |a|
      ensures Product(s.w, i, |a|, c) == a[s.perm[i]][c]
    {
      ProductIsEntry(s.w, i, |a|, c);
      assert Min(i, |a| - 1) == i;
      assert Entry(s.w, i, Min(i, |a| - 1), c) == a[s.perm[i]][c];
    }
  }
}
