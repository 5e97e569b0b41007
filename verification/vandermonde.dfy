/**
 Interpolation by solving the Vandermonde system: the elimination never meets a zero pivot
 on distinct nodes, and the polynomial it finds has Lagrange's value at every point.
 */
module Vandermonde {
  import opened Base
  import opened Plu
  import opened PluSolve
  import opened PluProgram
  import opened Interpolation

  function Power(t: real, k: nat): real {
    if k == 0 then 1.0 else Power(t, k - 1) * t
  }

  function Powers(t: real, n: nat): (u: Vector)
    ensures |u| == n
  {
    seq(n, k requires 0 <= k < n => Power(t, k))
  }

  function Vander(x: seq<real>): (a: Matrix)
    ensures Square(a, |x|)
  {
    seq(|x|, i requires 0 <= i < |x| => Powers(x[i], |x|))
  }

  // The value of the polynomial with coefficients c, constant term first.
  function Poly(c: Vector, t: real): real {
    if c == [] then 0.0 else c[0] + t * Poly(c[1..], t)
  }

  // ----- the three ways of evaluating agree -----

  lemma {:induction false} HeadAndTail(u: Vector, v: Vector, m: nat)
    requires |u| == |v| && m <= |u|
    ensures Head(u, v, m) + Tail(u, v, m) == Dot(u, v)
    decreases m
  {
    if m > 0 {
      HeadAndTail(u, v, m - 1);
    }
  }

  lemma {:induction false} TailIsPoly(c: Vector, t: real, lo: nat)
    requires lo <= |c|
    ensures Tail(Powers(t, |c|), c, lo) == Power(t, lo) * Poly(c[lo..], t)
    decreases |c| - lo
  {
    if lo < |c| {
      TailIsPoly(c, t, lo + 1);
      assert c[lo..][1..] == c[lo + 1..];
      Unfold(Power(t, lo), t, Poly(c[lo + 1..], t), c[lo]);
    }
  }

  lemma Unfold(p: real, t: real, q: real, c: real)
    ensures (p * t) * q + p * c == p * (c + t * q)
  {
  }

  // A row of the matrix times the coefficients is the polynomial's value.
  lemma DotIsPoly(c: Vector, t: real)
    ensures Dot(Powers(t, |c|), c) == Poly(c, t)
  {
    TailIsPoly(c, t, 0);
    assert c[0..] == c;
  }

  // ----- a polynomial with as many roots as coefficients is zero -----

  // The quotient by t - a.
  function DividedBy(c: Vector, a: real): (q: Vector)
    requires c != []
    ensures |q| == |c| - 1
  {
    if |c| == 1 then [] else [Poly(c[1..], a)] + DividedBy(c[1..], a)
  }

  lemma {:induction false} Division(c: Vector, a: real, t: real)
    requires c != []
    ensures Poly(c, t) == Poly(c, a) + (t - a) * Poly(DividedBy(c, a), t)
    decreases |c|
  {
    var rest := c[1..];
    if |c| == 1 {
      assert Poly(DividedBy(c, a), t) == 0.0;
      assert Poly(rest, t) == 0.0 && Poly(rest, a) == 0.0;
    } else {
      Division(rest, a, t);
      assert DividedBy(c, a)[1..] == DividedBy(rest, a);
      Expand(t, a, Poly(rest, a), Poly(DividedBy(rest, a), t));
    }
  }

  lemma Expand(t: real, a: real, p: real, q: real)
    ensures t * (p + (t - a) * q) == a * p + (t - a) * (p + t * q)
  {
    assert t * (p + (t - a) * q) == t * p + (t - a) * (t * q);
    assert (t - a) * (p + t * q) == (t - a) * p + (t - a) * (t * q);
  }

  ghost predicate AllZero(c: Vector) {
    forall i :: 0 <= i < |c| ==> c[i] == 0.0
  }

  lemma {:induction false} QuotientZero(c: Vector, a: real)
    requires c != [] && AllZero(DividedBy(c, a)) && Poly(c, a) == 0.0
    ensures AllZero(c)
    decreases |c|
  {
    var rest := c[1..];
    if |c| > 1 {
      var q := DividedBy(c, a);
      assert q[0] == Poly(rest, a);
      assert forall i :: 0 <= i < |rest| - 1 ==> DividedBy(rest, a)[i] == q[i + 1];
      QuotientZero(rest, a);
      assert c[0] == 0.0;
      forall i | 0 <= i < |c|
        ensures c[i] == 0.0
      {
        assert i > 0 ==> c[i] == rest[i - 1];
      }
    }
  }

  lemma NoDivisor(p: real, q: real)
    requires p * q == 0.0 && p != 0.0
    ensures q == 0.0
  {
  }

  lemma {:induction false} RootsForceZero(c: Vector, x: seq<real>)
    requires |c| == |x| && forall i, j :: 0 <= i < j < |x| ==> x[i] != x[j]
    requires forall i :: 0 <= i < |x| ==> Poly(c, x[i]) == 0.0
    ensures AllZero(c)
    decreases |c|
  {
    if c != [] {
      var q := DividedBy(c, x[0]);
      forall i | 0 <= i < |x| - 1
        ensures Poly(q, x[1..][i]) == 0.0
      {
        Division(c, x[0], x[i + 1]);
        NoDivisor(x[i + 1] - x[0], Poly(q, x[i + 1]));
      }
      RootsForceZero(q, x[1..]);
      QuotientZero(c, x[0]);
    }
  }

  // Elimination gets through on distinct nodes.
  lemma VanderRegular(x: seq<real>)
    requires forall i, j :: 0 <= i < j < |x| ==> x[i] != x[j]
    ensures Regular(Vander(x))
  {
    var a := Vander(x);
    forall v | Solves(a, Zeros(|a|), v)
      ensures v == Zeros(|a|)
    {
      forall i | 0 <= i < |x|
        ensures Poly(v, x[i]) == 0.0
      {
        assert Dot(a[i], v) == 0.0;
        DotIsPoly(v, x[i]);
      }
      RootsForceZero(v, x);
    }
  }

  // ----- Lagrange's form has coefficients -----

  function Plus(c: Vector, d: Vector): (r: Vector)
    requires |c| == |d|
    ensures |r| == |c|
  {
    if c == [] then [] else [c[0] + d[0]] + Plus(c[1..], d[1..])
  }

  function Scaled(c: Vector, s: real): (r: Vector)
    ensures |r| == |c|
  {
    if c == [] then [] else [s * c[0]] + Scaled(c[1..], s)
  }

  lemma {:induction false} PlusValue(c: Vector, d: Vector, t: real)
    requires |c| == |d|
    ensures Poly(Plus(c, d), t) == Poly(c, t) + Poly(d, t)
    decreases |c|
  {
    if c != [] {
      PlusValue(c[1..], d[1..], t);
      assert Plus(c, d)[1..] == Plus(c[1..], d[1..]);
    }
  }

  lemma {:induction false} ScaledValue(c: Vector, s: real, t: real)
    ensures Poly(Scaled(c, s), t) == s * Poly(c, t)
    decreases |c|
  {
    if c != [] {
      ScaledValue(c[1..], s, t);
      assert Scaled(c, s)[1..] == Scaled(c[1..], s);
      var p := Poly(c[1..], t);
      assert t * (s * p) == s * (t * p);
    }
  }

  lemma {:induction false} PaddedValue(c: Vector, t: real)
    ensures Poly(c + [0.0], t) == Poly(c, t)
    decreases |c|
  {
    if c != [] {
      PaddedValue(c[1..], t);
      assert (c + [0.0])[1..] == c[1..] + [0.0];
    } else {
      assert (c + [0.0])[1..] == [];
    }
  }

  // The coefficients of s * (t - a) times the polynomial.
  function TimesLinear(c: Vector, a: real, s: real): (r: Vector)
    ensures |r| == |c| + 1
  {
    Scaled(Plus([0.0] + c, Scaled(c + [0.0], -a)), s)
  }

  lemma TimesLinearValue(c: Vector, a: real, s: real, t: real)
    ensures Poly(TimesLinear(c, a, s), t) == Poly(c, t) * (s * (t - a))
  {
    var p := Poly(c, t);
    ScaledValue(Plus([0.0] + c, Scaled(c + [0.0], -a)), s, t);
    PlusValue([0.0] + c, Scaled(c + [0.0], -a), t);
    ScaledValue(c + [0.0], -a, t);
    PaddedValue(c, t);
    assert ([0.0] + c)[1..] == c;
    Gather(p, s, t, a);
  }

  lemma Gather(p: real, s: real, t: real, a: real)
    ensures s * (0.0 + t * p + -a * p) == p * (s * (t - a))
  {
    assert 0.0 + t * p + -a * p == p * (t - a);
  }

  lemma FactorIsLinear(x: seq<real>, y: seq<real>, k: nat, j: nat, t: real)
    requires Nodes(x, y) && k < |x| && j < |x| && j != k
    ensures x[k] != x[j] && Factor(x, k, j, t) == Over(1.0, x[k] - x[j]) * (t - x[j])
  {
  }

  lemma NextBasis(x: seq<real>, y: seq<real>, k: nat, hi: nat, c: Vector) returns (d: Vector)
    requires Nodes(x, y) && k < |x| && 0 < hi <= |x| && hi - 1 != k
    requires forall t :: Poly(c, t) == Basis(x, y, k, 0, hi - 1, t)
    ensures |d| == |c| + 1
    ensures forall t :: Poly(d, t) == Basis(x, y, k, 0, hi, t)
  {
    hide Poly, TimesLinear, Over, Factor;
    var s := Over(1.0, x[k] - x[hi - 1]);
    d := TimesLinear(c, x[hi - 1], s);
    forall t
      ensures Poly(d, t) == Basis(x, y, k, 0, hi, t)
    {
      TimesLinearValue(c, x[hi - 1], s, t);
      FactorIsLinear(x, y, k, hi - 1, t);
    }
  }

  lemma {:induction false} BasisHasCoefficients(x: seq<real>, y: seq<real>, k: nat, hi: nat) returns (d: Vector)
    requires Nodes(x, y) && k < |x| && hi <= |x|
    ensures |d| == if k < hi then hi else hi + 1
    ensures forall t :: Poly(d, t) == Basis(x, y, k, 0, hi, t)
    decreases hi
  {
    if hi == 0 {
      d := [1.0];
      forall t
        ensures Poly(d, t) == 1.0
      {
        assert d[1..] == [];
      }
    } else {
      var c := BasisHasCoefficients(x, y, k, hi - 1);
      if hi - 1 == k {
        d := c;
      } else {
        d := NextBasis(x, y, k, hi, c);
      }
    }
  }

  lemma {:induction false} ZerosValue(n: nat, t: real)
    ensures Poly(Zeros(n), t) == 0.0
    decreases n
  {
    if n > 0 {
      ZerosValue(n - 1, t);
      assert Zeros(n)[1..] == Zeros(n - 1);
    }
  }

  lemma {:induction false} TermsHaveCoefficients(x: seq<real>, y: seq<real>, m: nat) returns (d: Vector)
    requires Nodes(x, y) && m <= |x|
    ensures |d| == |x|
    ensures forall t :: Poly(d, t) == Terms(x, y, 0, |x|, m, t)
    decreases m
  {
    if m == 0 {
      d := Zeros(|x|);
      forall t
        ensures Poly(d, t) == 0.0
      {
        ZerosValue(|x|, t);
      }
    } else {
      var c := TermsHaveCoefficients(x, y, m - 1);
      var b := BasisHasCoefficients(x, y, m - 1, |x|);
      d := Plus(c, Scaled(b, y[m - 1]));
      forall t
        ensures Poly(d, t) == Terms(x, y, 0, |x|, m, t)
      {
        PlusValue(c, Scaled(b, y[m - 1]), t);
        ScaledValue(b, y[m - 1], t);
      }
    }
  }

  // ----- the theorem -----

  // For distinct nodes: no zero pivot, and the coefficients found give the polynomial with
  // the values y, which is Lagrange's at every point.
  lemma InterpolaIsLagrange(x: seq<real>, y: seq<real>)
    requires Nodes(x, y) && x != []
    ensures
      var f := Fatoracao(Vander(x));
      && f.Some? && Permutation(f.value.perm) && Substituicao(f.value, y).Some?
      && (forall i :: 0 <= i < |x| ==> Poly(Substituicao(f.value, y).value, x[i]) == y[i])
      && forall t :: Poly(Substituicao(f.value, y).value, t) == Lagrange(x, y, t)
  {
    var a := Vander(x);
    VanderRegular(x);
    GetsThroughIffRegular(a);
    SolutionIsExact(a, y);
    var d := TermsHaveCoefficients(x, y, |x|);
    forall i | 0 <= i < |x|
      ensures Poly(d, x[i]) == y[i] && Dot(a[i], d) == y[i]
    {
      NewtonIsLagrange(x, y, x[i]);
      NewtonInterpolates(x, y, i);
      DotIsPoly(d, x[i]);
    }
    assert Solves(a, y, d);
  }

  // ----- the programs -----

  // interpola: the matrix of powers, factored and solved.
  method Interpola(px: array<real>, py: array<real>) returns (c: array<real>)
    requires Nodes(px[..], py[..]) && px.Length > 0
    ensures fresh(c) && c.Length == px.Length
    ensures forall t :: Poly(c[..], t) == Lagrange(px[..], py[..], t)
  {
    var n := px.Length;
    ghost var x := px[..];
    var a := new real[n, n];
    for i := 0 to n
      invariant forall r, k :: 0 <= r < i && 0 <= k < n ==> a[r, k] == Power(x[r], k)
    {
      for j := 0 to n
        invariant forall r, k :: 0 <= r < i && 0 <= k < n ==> a[r, k] == Power(x[r], k)
        invariant forall k :: 0 <= k < j ==> a[i, k] == Power(x[i], k)
      {
        a[i, j] := Power(px[i], j);
      }
    }
    hide Fatoracao, Substituicao, IsPermutation, Permutation, Lagrange, Poly;
    InterpolaIsLagrange(x, py[..]);
    FactorsMultiply(Vander(x));
    MatrixEqual(View(a), Vander(x));
    var ok, p, perm := FactorInPlace(a);
    assert forall k :: 0 <= k < n - 1 ==> View(a)[k][k] == a[k, k];
    ok, c := Solve(a, p, py, perm);
  }

  method Avalia(c: seq<real>, x: real) returns (result: real)
    ensures result == Poly(c, x)
  {
    result := 0.0;
    var xn := 1.0;
    for i := 0 to |c|
      invariant xn == Power(x, i) && result == Head(Powers(x, |c|), c, i)
    {
      result := result + c[i] * xn;
      xn := xn * x;
    }
    HeadAndTail(Powers(x, |c|), c, |c|);
    DotIsPoly(c, x);
  }
}
