/**
 Newton's divided differences and Lagrange's formula over exact reals: the table and the two
 evaluation loops as the programs run them, and the proof that both compute the polynomial
 through the given points.
 */
module Interpolation {

  // Pairwise distinct nodes, one value each.
  ghost predicate Nodes(x: seq<real>, y: seq<real>) {
    |x| == |y| && forall i, j :: 0 <= i < j < |x| ==> x[i] != x[j]
  }

  // ----- divided differences -----

  function Ratio(p: real, q: real): real
    requires q != 0.0
  {
    p / q
  }

  // The divided difference over nodes lo..hi-1.
  function Divided(x: seq<real>, y: seq<real>, lo: nat, hi: nat): real
    requires Nodes(x, y) && lo < hi <= |x|
    decreases hi - lo
  {
    if hi == lo + 1 then y[lo]
    else Ratio(Divided(x, y, lo + 1, hi) - Divided(x, y, lo, hi - 1), x[hi - 1] - x[lo])
  }

  // The product of t - x[k] over k in lo..hi-1.
  function Prod(x: seq<real>, lo: nat, hi: nat, t: real): real
    requires lo <= hi <= |x|
    decreases hi - lo
  {
    if hi == lo then 1.0 else Prod(x, lo, hi - 1, t) * (t - x[hi - 1])
  }

  // The first m terms of Newton's form.
  function Newton(x: seq<real>, y: seq<real>, m: nat, t: real): real
    requires Nodes(x, y) && m <= |x|
  {
    if m == 0 then 0.0 else Newton(x, y, m - 1, t) + Divided(x, y, 0, m) * Prod(x, 0, m - 1, t)
  }

  // ----- Lagrange's form -----

  function Factor(x: seq<real>, k: nat, j: nat, t: real): real
    requires k < |x| && j < |x| && (k != j ==> x[k] != x[j])
  {
    if j == k then 1.0 else (t - x[j]) / (x[k] - x[j])
  }

  // The basis polynomial of node k among nodes lo..hi-1.
  function Basis(x: seq<real>, y: seq<real>, k: nat, lo: nat, hi: nat, t: real): real
    requires Nodes(x, y) && lo <= hi <= |x| && k < |x|
    decreases hi - lo
  {
    if hi == lo then 1.0 else Basis(x, y, k, lo, hi - 1, t) * Factor(x, k, hi - 1, t)
  }

  // The terms of nodes lo..m-1 of Lagrange's form over nodes lo..hi-1.
  function Terms(x: seq<real>, y: seq<real>, lo: nat, hi: nat, m: nat, t: real): real
    requires Nodes(x, y) && lo <= m <= hi <= |x|
    decreases m
  {
    if m == lo then 0.0 else Terms(x, y, lo, hi, m - 1, t) + y[m - 1] * Basis(x, y, m - 1, lo, hi, t)
  }

  function Lagrange(x: seq<real>, y: seq<real>, t: real): real
    requires Nodes(x, y)
  {
    Terms(x, y, 0, |x|, |x|, t)
  }

  // ----- Neville's recurrence, between the two -----

  // One step of the recurrence: from the values without the first node, u, and the last, v.
  function Combine(t: real, u: real, v: real, a: real, b: real): real
    requires v != u
  {
    ((t - u) * a - (t - v) * b) / (v - u)
  }

  // The value at t of the polynomial through nodes lo..hi-1.
  function Neville(x: seq<real>, y: seq<real>, lo: nat, hi: nat, t: real): real
    requires Nodes(x, y) && lo < hi <= |x|
    decreases hi - lo
  {
    if hi == lo + 1 then y[lo]
    else Combine(t, x[lo], x[hi - 1], Neville(x, y, lo + 1, hi, t), Neville(x, y, lo, hi - 1, t))
  }

  lemma {:induction false} ProdFirst(x: seq<real>, lo: nat, hi: nat, t: real)
    requires lo < hi <= |x|
    ensures Prod(x, lo, hi, t) == (t - x[lo]) * Prod(x, lo + 1, hi, t)
    decreases hi - lo
  {
    if hi > lo + 1 {
      ProdFirst(x, lo, hi - 1, t);
    }
  }

  lemma Numerator(t: real, u: real, v: real, a: real, b: real)
    ensures (t - u) * a - (t - v) * b == b * (v - u) + (t - u) * (a - b)
    ensures (t - u) * a - (t - v) * b == a * (v - u) + (t - v) * (a - b)
  {
  }

  lemma Regroup(p: real, d: real, w: real, r: real)
    ensures p * ((d * w) * r) == w * (d * (p * r))
  {
  }

  lemma Quotient(p: real, q: real, w: real)
    requires w != 0.0
    ensures (p * w + w * q) / w == p + q
  {
    assert p * w + w * q == (p + q) * w;
    Divides(p + q, w);
  }

  lemma Divides(a: real, w: real)
    requires w != 0.0
    ensures a * w / w == a
  {
  }

  lemma Difference(c: real, d1: real, d2: real, r: real)
    ensures (c + d1 * r) - (c + d2 * r) == (d1 - d2) * r
  {
  }

  // a = c + d1 r and b = c + d2 r: the recurrence's value is either of them plus one more
  // term, with the difference quotient for its coefficient.
  lemma NevilleAlgebra(t: real, u: real, v: real, a: real, b: real, d1: real, d2: real, r: real, c: real, d: real)
    requires v != u && a == c + d1 * r && b == c + d2 * r && d == (d1 - d2) / (v - u)
    ensures ((t - u) * a - (t - v) * b) / (v - u) == b + d * ((t - u) * r)
    ensures ((t - u) * a - (t - v) * b) / (v - u) == a + d * ((t - v) * r)
  {
    var w := v - u;
    assert d * w == d1 - d2;
    Difference(c, d1, d2, r);
    assert a - b == (d * w) * r;
    Numerator(t, u, v, a, b);
    Regroup(t - u, d, w, r);
    Regroup(t - v, d, w, r);
    Quotient(b, d * ((t - u) * r), w);
    Quotient(a, d * ((t - v) * r), w);
  }

  lemma NevilleStep(x: seq<real>, y: seq<real>, lo: nat, hi: nat, t: real)
    requires Nodes(x, y) && lo + 1 < hi <= |x|
    ensures x[hi - 1] != x[lo]
    ensures Neville(x, y, lo, hi, t) ==
            Combine(t, x[lo], x[hi - 1], Neville(x, y, lo + 1, hi, t), Neville(x, y, lo, hi - 1, t))
    ensures Divided(x, y, lo, hi) ==
            Ratio(Divided(x, y, lo + 1, hi) - Divided(x, y, lo, hi - 1), x[hi - 1] - x[lo])
  {
    hide Combine, Ratio;
  }

  lemma NevilleOne(x: seq<real>, y: seq<real>, lo: nat, t: real)
    requires Nodes(x, y) && lo < |x|
    ensures Neville(x, y, lo, lo + 1, t) == y[lo] == Divided(x, y, lo, lo + 1)
  {
  }

  lemma ProdLast(x: seq<real>, lo: nat, hi: nat, t: real)
    requires lo < hi <= |x|
    ensures Prod(x, lo, hi, t) == (t - x[hi - 1]) * Prod(x, lo, hi - 1, t)
  {
  }

  // Adding a node at either end adds one term, with the same divided difference.
  lemma {:induction false} NevilleGrows(x: seq<real>, y: seq<real>, lo: nat, hi: nat, t: real)
    requires Nodes(x, y) && lo + 1 < hi <= |x|
    ensures Neville(x, y, lo, hi, t) == Neville(x, y, lo, hi - 1, t) + Divided(x, y, lo, hi) * Prod(x, lo, hi - 1, t)
    ensures Neville(x, y, lo, hi, t) == Neville(x, y, lo + 1, hi, t) + Divided(x, y, lo, hi) * Prod(x, lo + 1, hi, t)
    decreases hi - lo
  {
    hide Neville, Divided, Prod;
    var u, v := x[lo], x[hi - 1];
    var a, b := Neville(x, y, lo + 1, hi, t), Neville(x, y, lo, hi - 1, t);
    var d1, d2 := Divided(x, y, lo + 1, hi), Divided(x, y, lo, hi - 1);
    var r := Prod(x, lo + 1, hi - 1, t);
    NevilleStep(x, y, lo, hi, t);
    ProdFirst(x, lo, hi - 1, t);
    ProdLast(x, lo + 1, hi, t);
    var c := if hi == lo + 2 then 0.0 else Neville(x, y, lo + 1, hi - 1, t);
    if hi == lo + 2 {
      NevilleOne(x, y, lo, t);
      NevilleOne(x, y, lo + 1, t);
      ProdNone(x, lo + 1, t);
    } else {
      NevilleGrows(x, y, lo + 1, hi, t);
      NevilleGrows(x, y, lo, hi - 1, t);
    }
    NevilleAlgebra(t, u, v, a, b, d1, d2, r, c, Divided(x, y, lo, hi));
  }

  lemma ProdNone(x: seq<real>, lo: nat, t: real)
    requires lo <= |x|
    ensures Prod(x, lo, lo, t) == 1.0
  {
  }

  lemma {:induction false} NewtonIsNeville(x: seq<real>, y: seq<real>, m: nat, t: real)
    requires Nodes(x, y) && 0 < m <= |x|
    ensures Newton(x, y, m, t) == Neville(x, y, 0, m, t)
    decreases m
  {
    hide Neville, Divided, Prod;
    if m == 1 {
      NewtonNone(x, y, t);
      NevilleOne(x, y, 0, t);
      ProdNone(x, 0, t);
    } else {
      NewtonIsNeville(x, y, m - 1, t);
      NevilleGrows(x, y, 0, m, t);
    }
  }

  lemma NewtonNone(x: seq<real>, y: seq<real>, t: real)
    requires Nodes(x, y)
    ensures Newton(x, y, 0, t) == 0.0
  {
  }

  lemma {:induction false} BasisFirst(x: seq<real>, y: seq<real>, k: nat, lo: nat, hi: nat, t: real)
    requires Nodes(x, y) && lo < hi <= |x| && k < |x|
    ensures Basis(x, y, k, lo, hi, t) == Factor(x, k, lo, t) * Basis(x, y, k, lo + 1, hi, t)
    decreases hi - lo
  {
    if hi > lo + 1 {
      BasisFirst(x, y, k, lo, hi - 1, t);
    } else {
      assert Basis(x, y, k, lo, lo, t) == 1.0 && Basis(x, y, k, lo + 1, hi, t) == 1.0;
    }
  }

  lemma Clear(s: real, d: real, p: real)
    requires d != 0.0
    ensures (s / d * p) * d == s * p
  {
    var f := s / d;
    assert f * d == s;
    assert (f * p) * d == (f * d) * p;
  }

  // How a basis polynomial over lo..hi-1 relates to the one without the first node...
  lemma BasisDropsFirst(x: seq<real>, y: seq<real>, k: nat, lo: nat, hi: nat, t: real)
    requires Nodes(x, y) && lo + 1 < hi <= |x| && lo < k < hi
    ensures Basis(x, y, k, lo, hi, t) * (x[k] - x[lo]) == (t - x[lo]) * Basis(x, y, k, lo + 1, hi, t)
  {
    hide Basis;
    BasisFirst(x, y, k, lo, hi, t);
    Clear(t - x[lo], x[k] - x[lo], Basis(x, y, k, lo + 1, hi, t));
  }

  // ... and to the one without the last.
  lemma BasisDropsLast(x: seq<real>, y: seq<real>, k: nat, lo: nat, hi: nat, t: real)
    requires Nodes(x, y) && lo + 1 < hi <= |x| && lo <= k < hi - 1
    ensures Basis(x, y, k, lo, hi, t) * (x[k] - x[hi - 1]) == (t - x[hi - 1]) * Basis(x, y, k, lo, hi - 1, t)
  {
    hide Basis;
    BasisLast(x, y, k, lo, hi, t);
    Clear(t - x[hi - 1], x[k] - x[hi - 1], Basis(x, y, k, lo, hi - 1, t));
  }

  lemma BasisLast(x: seq<real>, y: seq<real>, k: nat, lo: nat, hi: nat, t: real)
    requires Nodes(x, y) && lo < hi <= |x| && k < |x|
    ensures Basis(x, y, k, lo, hi, t) == Factor(x, k, hi - 1, t) * Basis(x, y, k, lo, hi - 1, t)
  {
  }

  lemma Subtract(b: real, xk: real, u: real, v: real)
    ensures b * (xk - u) - b * (xk - v) == b * (v - u)
  {
  }

  lemma Scale(y: real, b: real, w: real, p: real, q: real, s: real, r: real)
    requires b * w == s * p - r * q
    ensures (y * b) * w == s * (y * p) - r * (y * q)
  {
    assert (y * b) * w == y * (b * w);
    assert y * (s * p - r * q) == s * (y * p) - r * (y * q);
  }

  lemma TermAlgebra(b: real, p: real, q: real, xk: real, u: real, v: real, t: real, yk: real)
    requires b * (xk - u) == (t - u) * p && b * (xk - v) == (t - v) * q
    ensures (yk * b) * (v - u) == (t - u) * (yk * p) - (t - v) * (yk * q)
  {
    Subtract(b, xk, u, v);
    Scale(yk, b, v - u, p, q, t - u, t - v);
  }

  lemma TermsStep(x: seq<real>, y: seq<real>, lo: nat, hi: nat, m: nat, t: real)
    requires Nodes(x, y) && lo <= m <= hi <= |x|
    ensures Terms(x, y, lo, hi, lo, t) == 0.0
    ensures lo < m ==> Terms(x, y, lo, hi, m, t)
                           == Terms(x, y, lo, hi, m - 1, t) + y[m - 1] * Basis(x, y, m - 1, lo, hi, t)
  {
  }

  lemma Accumulate(s: real, b: real, p': real, p: real, q': real, q: real, w: real, c: real, d: real)
    requires s * w == c * p' - d * q' && b * w == c * p - d * q
    ensures (s + b) * w == c * (p' + p) - d * (q' + q)
  {
    assert (s + b) * w == s * w + b * w;
    assert c * (p' + p) == c * p' + c * p;
    assert d * (q' + q) == d * q' + d * q;
  }

  // Lagrange's form satisfies the recurrence term by term.
  lemma {:induction false} TermsRecur(x: seq<real>, y: seq<real>, lo: nat, hi: nat, m: nat, t: real)
    requires Nodes(x, y) && lo + 1 < hi <= |x| && lo + 1 <= m <= hi - 1
    ensures Terms(x, y, lo, hi, m, t) * (x[hi - 1] - x[lo]) ==
            (t - x[lo]) * Terms(x, y, lo + 1, hi, m, t) - (t - x[hi - 1]) * Terms(x, y, lo, hi - 1, m, t)
    decreases m
  {
    hide Terms, Basis;
    var u, v, k := x[lo], x[hi - 1], m - 1;
    var b, q := Basis(x, y, k, lo, hi, t), Basis(x, y, k, lo, hi - 1, t);
    BasisDropsLast(x, y, k, lo, hi, t);
    TermsStep(x, y, lo, hi, m, t);
    TermsStep(x, y, lo, hi - 1, m, t);
    TermsStep(x, y, lo + 1, hi, m, t);
    if m == lo + 1 {
      Vanish(b, t - u);
      TermAlgebra(b, 0.0, q, u, u, v, t, y[k]);
      Vanish(y[k], t - u);
    } else {
      var p := Basis(x, y, k, lo + 1, hi, t);
      BasisDropsFirst(x, y, k, lo, hi, t);
      TermAlgebra(b, p, q, x[k], u, v, t, y[k]);
      TermsRecur(x, y, lo, hi, m - 1, t);
      Accumulate(Terms(x, y, lo, hi, m - 1, t), y[k] * b,
                 Terms(x, y, lo + 1, hi, m - 1, t), y[k] * p,
                 Terms(x, y, lo, hi - 1, m - 1, t), y[k] * q, v - u, t - u, t - v);
    }
  }

  lemma Vanish(a: real, b: real)
    ensures a * 0.0 == 0.0 && b * 0.0 == 0.0 && b * (a * 0.0) == 0.0
  {
  }

  lemma {:induction false} LagrangeIsNeville(x: seq<real>, y: seq<real>, lo: nat, hi: nat, t: real)
    requires Nodes(x, y) && lo < hi <= |x|
    ensures Terms(x, y, lo, hi, hi, t) == Neville(x, y, lo, hi, t)
    decreases hi - lo
  {
    hide Terms, Basis, Neville, Divided;
    TermsStep(x, y, lo, hi, hi, t);
    var u, v, k := x[lo], x[hi - 1], hi - 1;
    if hi == lo + 1 {
      BasisOne(x, y, lo, t);
      NevilleOne(x, y, lo, t);
    } else {
      LagrangeIsNeville(x, y, lo + 1, hi, t);
      LagrangeIsNeville(x, y, lo, hi - 1, t);
      TermsRecur(x, y, lo, hi, hi - 1, t);
      TermsStep(x, y, lo + 1, hi, hi, t);
      var b, p := Basis(x, y, k, lo, hi, t), Basis(x, y, k, lo + 1, hi, t);
      BasisDropsFirst(x, y, k, lo, hi, t);
      Vanish(b, t - v);
      TermAlgebra(b, p, 0.0, v, u, v, t, y[k]);
      Vanish(y[k], t - v);
      Accumulate(Terms(x, y, lo, hi, k, t), y[k] * b,
                 Terms(x, y, lo + 1, hi, k, t), y[k] * p,
                 Terms(x, y, lo, hi - 1, k, t), 0.0, v - u, t - u, t - v);
      NevilleStep(x, y, lo, hi, t);
      Divides(Terms(x, y, lo, hi, hi, t), v - u);
    }
  }

  lemma BasisOne(x: seq<real>, y: seq<real>, lo: nat, t: real)
    requires Nodes(x, y) && lo < |x|
    ensures Basis(x, y, lo, lo, lo + 1, t) == 1.0
  {
  }

  // ----- at the nodes -----

  lemma Pick(t: real, u: real, v: real, c: real)
    ensures (t - u) * c - (t - v) * c == c * (v - u)
  {
  }

  lemma {:induction false} NevilleAtNode(x: seq<real>, y: seq<real>, lo: nat, hi: nat, k: nat)
    requires Nodes(x, y) && lo <= k < hi <= |x|
    ensures Neville(x, y, lo, hi, x[k]) == y[k]
    decreases hi - lo
  {
    hide Neville, Divided;
    if hi == lo + 1 {
      NevilleOne(x, y, lo, x[k]);
    } else {
      var u, v, t, c := x[lo], x[hi - 1], x[k], y[k];
      var a, b := Neville(x, y, lo + 1, hi, t), Neville(x, y, lo, hi - 1, t);
      NevilleStep(x, y, lo, hi, t);
      Pick(t, u, v, c);
      Divides(c, v - u);
      if k == lo {
        NevilleAtNode(x, y, lo, hi - 1, k);
        assert (t - u) * a == 0.0 == (t - u) * c;
      } else if k == hi - 1 {
        NevilleAtNode(x, y, lo + 1, hi, k);
        assert (t - v) * b == 0.0 == (t - v) * c;
      } else {
        NevilleAtNode(x, y, lo + 1, hi, k);
        NevilleAtNode(x, y, lo, hi - 1, k);
      }
    }
  }

  // Newton's form takes the given value at every node...
  lemma NewtonInterpolates(x: seq<real>, y: seq<real>, k: nat)
    requires Nodes(x, y) && k < |x|
    ensures Newton(x, y, |x|, x[k]) == y[k]
  {
    NewtonIsNeville(x, y, |x|, x[k]);
    NevilleAtNode(x, y, 0, |x|, k);
  }

  // ... and equals Lagrange's form at every real point.
  lemma NewtonIsLagrange(x: seq<real>, y: seq<real>, t: real)
    requires Nodes(x, y)
    ensures Newton(x, y, |x|, t) == Lagrange(x, y, t)
  {
    if |x| > 0 {
      NewtonIsNeville(x, y, |x|, t);
      LagrangeIsNeville(x, y, 0, |x|, t);
    }
  }

  // ----- the programs -----

  lemma DividedStep(x: seq<real>, y: seq<real>, lo: nat, hi: nat)
    requires Nodes(x, y) && lo < hi <= |x|
    ensures hi == lo + 1 ==> Divided(x, y, lo, hi) == y[lo]
    ensures hi > lo + 1 ==> x[hi - 1] != x[lo]
    ensures hi > lo + 1 ==>
              Divided(x, y, lo, hi) == Ratio(Divided(x, y, lo + 1, hi) - Divided(x, y, lo, hi - 1), x[hi - 1] - x[lo])
  {
    hide Ratio;
  }

  // Fills row i of the table from its diagonal to the left, using row i - 1.
  method FillRow(x: array<real>, mem: array2<real>, i: nat, ghost ys: seq<real>)
    requires Nodes(x[..], ys) && 1 <= i < x.Length && mem.Length0 == mem.Length1 == x.Length
    requires mem[i, i] == ys[i]
    requires forall k :: 0 <= k < i ==> mem[i - 1, k] == Divided(x[..], ys, k, i)
    modifies mem
    ensures forall k :: 0 <= k <= i ==> mem[i, k] == Divided(x[..], ys, k, i + 1)
    ensures forall r, k :: 0 <= r < x.Length && 0 <= k < x.Length && (r != i || k > i) ==> mem[r, k] == old(mem[r, k])
  {
    hide Divided;
    ghost var xs := x[..];
    DividedStep(xs, ys, i, i + 1);
    var j := i - 1;
    while j >= 0
      invariant -1 <= j < i
      invariant forall r, k :: 0 <= r < x.Length && 0 <= k < x.Length && (r != i || k > i) ==>
          mem[r, k] == old(mem[r, k])
      invariant forall k :: j < k <= i ==> mem[i, k] == Divided(xs, ys, k, i + 1)
    {
      DividedStep(xs, ys, j, i + 1);
      mem[i, j] := (mem[i, j + 1] - mem[i - 1, j]) / (x[i] - x[j]);
      j := j - 1;
    }
  }

  // The table is filled row by row; column 0 holds the coefficients.
  method NewtonCompute(x: array<real>, y: array<real>) returns (b: array<real>)
    requires Nodes(x[..], y[..])
    ensures fresh(b) && b.Length == x.Length
    ensures forall i :: 0 <= i < b.Length ==> b[i] == Divided(x[..], y[..], 0, i + 1)
  {
    hide Divided;
    var n := x.Length;
    ghost var xs, ys := x[..], y[..];
    b := new real[n](_ => 0.0);
    var mem := new real[n, n]((_, _) => 0.0);
    for i := 0 to n
      invariant forall k :: 0 <= k < i ==> mem[k, k] == ys[k]
    {
      mem[i, i] := y[i];
    }
    if n > 0 {
      DividedStep(xs, ys, 0, 1);
    }
    var i := 1;
    while i < n
      invariant 1 <= i && (i <= n || i == 1)
      invariant forall k :: i <= k < n ==> mem[k, k] == ys[k]
      invariant forall r, k :: 0 <= k <= r < i && r < n ==> mem[r, k] == Divided(xs, ys, k, r + 1)
    {
      FillRow(x, mem, i, ys);
      i := i + 1;
    }
    for k := 0 to n
      invariant forall r :: 0 <= r < k ==> b[r] == Divided(xs, ys, 0, r + 1)
      invariant forall r :: 0 <= r < n ==> mem[r, 0] == Divided(xs, ys, 0, r + 1)
    {
      b[k] := mem[k, 0];
    }
  }

  lemma NewtonLast(x: seq<real>, y: seq<real>, m: nat, t: real)
    requires Nodes(x, y) && 0 < m <= |x|
    ensures Newton(x, y, m, t) == Newton(x, y, m - 1, t) + Divided(x, y, 0, m) * Prod(x, 0, m - 1, t)
  {
    hide Divided, Prod;
  }

  method NewtonEval(x: array<real>, b: array<real>, t: real, ghost y: seq<real>) returns (r: real)
    requires Nodes(x[..], y) && b.Length == x.Length
    requires forall i :: 0 <= i < b.Length ==> b[i] == Divided(x[..], y, 0, i + 1)
    ensures r == Newton(x[..], y, x.Length, t) == Lagrange(x[..], y, t)
    ensures forall k :: 0 <= k < x.Length && t == x[k] ==> r == y[k]
  {
    hide Divided, Prod, Lagrange;
    ghost var xs := x[..];
    r := 0.0;
    NewtonNone(xs, y, t);
    ProdNone(xs, 0, t);
    var temp := 1.0;
    for i := 0 to x.Length
      invariant r == Newton(xs, y, i, t)
      invariant temp == Prod(xs, 0, if i == 0 then 0 else i - 1, t)
    {
      if i > 0 {
        ProdLast(xs, 0, i, t);
        temp := temp * (t - x[i - 1]);
      }
      NewtonLast(xs, y, i + 1, t);
      r := r + b[i] * temp;
    }
    NewtonIsLagrange(xs, y, t);
    forall k | 0 <= k < x.Length && t == x[k]
      ensures r == y[k]
    {
      NewtonInterpolates(xs, y, k);
    }
  }

  // The inner loop: the basis polynomial of node i at t.
  method BasisAt(px: array<real>, i: nat, t: real, ghost ys: seq<real>) returns (lk: real)
    requires Nodes(px[..], ys) && i < px.Length
    ensures lk == Basis(px[..], ys, i, 0, px.Length, t)
  {
    lk := 1.0;
    for j := 0 to px.Length
      invariant lk == Basis(px[..], ys, i, 0, j, t)
    {
      if i != j {
        lk := lk * ((t - px[j]) / (px[i] - px[j]));
      }
    }
  }

  method LagrangeEval(px: array<real>, py: array<real>, t: real) returns (result: real)
    requires Nodes(px[..], py[..])
    ensures result == Lagrange(px[..], py[..], t)
    ensures forall k :: 0 <= k < px.Length && t == px[k] ==> result == py[k]
  {
    hide Basis, Newton, Divided, Prod;
    ghost var xs, ys := px[..], py[..];
    result := 0.0;
    for i := 0 to px.Length
      invariant result == Terms(xs, ys, 0, px.Length, i, t)
    {
      var lk := BasisAt(px, i, t, ys);
      result := result + py[i] * lk;
    }
    NewtonIsLagrange(xs, ys, t);
    forall k | 0 <= k < px.Length && t == px[k]
      ensures result == py[k]
    {
      NewtonInterpolates(xs, ys, k);
      assert ys[k] == py[k];
    }
  }
}
