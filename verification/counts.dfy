/** Sums of an integer-valued function along a sequence, used to count threads at a program point. */
module Counts {

  ghost function Total<T(!new)>(s: seq<T>, f: T -> int): int {
    if s == [] then 0 else Total(s[..|s| - 1], f) + f(s[|s| - 1])
  }

  lemma {:induction false} TotalUpdate<T(!new)>(s: seq<T>, i: nat, x: T, f: T -> int)
    requires i < |s|
    ensures Total(s[i := x], f) == Total(s, f) - f(s[i]) + f(x)
    decreases |s|
  {
    var last := |s| - 1;
    if i < last {
      TotalUpdate(s[..last], i, x, f);
      assert s[i := x][..last] == s[..last][i := x];
    } else {
      assert s[i := x][..last] == s[..last];
    }
  }

  lemma {:induction false} TotalZero<T(!new)>(s: seq<T>, f: T -> int)
    requires forall i :: 0 <= i < |s| ==> f(s[i]) == 0
    ensures Total(s, f) == 0
    decreases |s|
  {
    if s != [] {
      TotalZero(s[..|s| - 1], f);
    }
  }

  lemma {:induction false} TotalNonNegative<T(!new)>(s: seq<T>, f: T -> int)
    requires forall i :: 0 <= i < |s| ==> f(s[i]) >= 0
    ensures Total(s, f) >= 0
    decreases |s|
  {
    if s != [] {
      TotalNonNegative(s[..|s| - 1], f);
    }
  }

  // A nonnegative total is at least each of its terms.
  lemma {:induction false} TotalAtLeast<T(!new)>(s: seq<T>, i: nat, f: T -> int)
    requires i < |s| && forall k :: 0 <= k < |s| ==> f(s[k]) >= 0
    ensures Total(s, f) >= f(s[i])
    decreases |s|
  {
    var last := |s| - 1;
    if i < last {
      TotalAtLeast(s[..last], i, f);
    } else {
      TotalNonNegative(s[..last], f);
    }
  }
}
