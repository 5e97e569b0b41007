/** Sums of a real-valued function along a sequence. */
module Sums {

  ghost function Sum<T(!new)>(s: seq<T>, f: T -> real): real {
    if s == [] then 0.0 else Sum(s[..|s| - 1], f) + f(s[|s| - 1])
  }

  lemma SumPush<T(!new)>(s: seq<T>, x: T, f: T -> real)
    ensures Sum(s + [x], f) == Sum(s, f) + f(x)
  {
    assert (s + [x])[..|s|] == s;
  }

  lemma {:induction false} SumCons<T(!new)>(x: T, s: seq<T>, f: T -> real)
    ensures Sum([x] + s, f) == f(x) + Sum(s, f)
    decreases |s|
  {
    if s == [] {
      assert [x] + s == [] + [x];
      SumPush([], x, f);
    } else {
      var last := |s| - 1;
      SumCons(x, s[..last], f);
      SumPush([x] + s[..last], s[last], f);
      assert [x] + s == [x] + s[..last] + [s[last]];
    }
  }

  lemma SumTail<T(!new)>(s: seq<T>, f: T -> real)
    requires s != []
    ensures Sum(s, f) == f(s[0]) + Sum(s[1..], f)
  {
    SumCons(s[0], s[1..], f);
    assert [s[0]] + s[1..] == s;
  }

  lemma {:induction false} SumUpdate<T(!new)>(s: seq<T>, i: nat, x: T, f: T -> real)
    requires i < |s|
    ensures Sum(s[i := x], f) == Sum(s, f) - f(s[i]) + f(x)
    decreases |s|
  {
    var last := |s| - 1;
    if i < last {
      SumUpdate(s[..last], i, x, f);
      assert s[i := x][..last] == s[..last][i := x];
    } else {
      assert s[i := x][..last] == s[..last];
    }
  }

  lemma {:induction false} SumBounds<T(!new)>(s: seq<T>, f: T -> real, low: real, high: real)
    requires forall i :: 0 <= i < |s| ==> low <= f(s[i]) <= high
    ensures low * |s| as real <= Sum(s, f) <= high * |s| as real
    decreases |s|
  {
    if s != [] {
      SumBounds(s[..|s| - 1], f, low, high);
    }
  }

  // A sum at its upper bound has every term there.
  lemma {:induction false} SumTight<T(!new)>(s: seq<T>, f: T -> real, high: real)
    requires forall i :: 0 <= i < |s| ==> f(s[i]) <= high
    requires Sum(s, f) >= high * |s| as real
    ensures forall i :: 0 <= i < |s| ==> f(s[i]) == high
    decreases |s|
  {
    if s != [] {
      var last := |s| - 1;
      assert high * |s| as real == high * last as real + high;
      SumAtMost(s[..last], f, high);
      SumTight(s[..last], f, high);
      assert f(s[last]) == high;
      forall i | 0 <= i < |s|
        ensures f(s[i]) == high
      {
        if i < last {
          assert s[..last][i] == s[i];
        }
      }
    }
  }

  lemma {:induction false} SumAtMost<T(!new)>(s: seq<T>, f: T -> real, high: real)
    requires forall i :: 0 <= i < |s| ==> f(s[i]) <= high
    ensures Sum(s, f) <= high * |s| as real
    decreases |s|
  {
    if s != [] {
      SumAtMost(s[..|s| - 1], f, high);
    }
  }

  lemma {:induction false} SumNonNegative<T(!new)>(s: seq<T>, f: T -> real)
    requires forall i :: 0 <= i < |s| ==> f(s[i]) >= 0.0
    ensures Sum(s, f) >= 0.0
    decreases |s|
  {
    if s != [] {
      SumNonNegative(s[..|s| - 1], f);
    }
  }

  // A positive sum has a positive term.
  lemma {:induction false} SumPositive<T(!new)>(s: seq<T>, f: T -> real) returns (i: nat)
    requires Sum(s, f) > 0.0
    ensures i < |s| && f(s[i]) > 0.0
    decreases |s|
  {
    var last := |s| - 1;
    if f(s[last]) > 0.0 {
      i := last;
    } else {
      i := SumPositive(s[..last], f);
    }
  }
}
