/**
 The size estimate that decides how many threads the TSP program serves: exactly which numbers
 it grants, and which ones it refuses although there are tours enough for them.
 */
module TspEstimate {
  import opened TspPartition

  // b * (b + 1) * ... * (b + k).
  function Rising(b: nat, k: nat): (r: nat)
    ensures b >= 1 ==> r >= b
  {
    if k == 0 then b else
      MulAtLeast(Rising(b, k - 1), b + k);
      Rising(b, k - 1) * (b + k)
  }

  lemma MulAtLeast(a: nat, c: nat)
    requires c >= 1
    ensures a * c >= a
  {
    assert a * c == a * (c - 1) + a;
  }

  lemma RisingGrows(b: nat, k: nat)
    requires b >= 1
    ensures Rising(b, k) < Rising(b, k + 1) == Rising(b, k) * (b + k + 1)
  {
    var r := Rising(b, k);
    MulAtLeast(r, b + k);
    assert r * (b + (k + 1)) == r * (b + k) + r;
  }

  lemma {:induction false} RisingAscends(b: nat, i: nat, j: nat)
    requires b >= 1 && i <= j
    ensures Rising(b, i) <= Rising(b, j)
    decreases j
  {
    if i < j {
      RisingAscends(b, i, j - 1);
      RisingGrows(b, j - 1);
    }
  }

  // A product of rising factors has room for the threads, and the tree has as many tours.
  ghost predicate Serves(n: nat, threads: nat, k: nat)
    requires n >= 2
  {
    threads <= Rising(n - 1, k) <= Fact(n - 1)
  }

  ghost predicate Granted(n: nat, threads: nat)
    requires n >= 2
  {
    exists k: nat :: Serves(n, threads, k)
  }

  // The k products before the k-th have no room for the threads.
  ghost predicate TooSmall(b: nat, k: nat, threads: nat) {
    forall j: nat :: j < k ==> Rising(b, j) < threads
  }

  lemma NoneTooSmall(b: nat, threads: nat)
    ensures TooSmall(b, 0, threads)
  {
  }

  lemma NextTooSmall(b: nat, k: nat, threads: nat)
    requires TooSmall(b, k, threads) && Rising(b, k) < threads
    ensures TooSmall(b, k + 1, threads)
  {
  }

  // The first product with room for the threads decides.
  lemma FirstServes(n: nat, threads: nat, k: nat)
    requires n >= 2 && TooSmall(n - 1, k, threads) && threads <= Rising(n - 1, k)
    ensures Granted(n, threads) <==> Rising(n - 1, k) <= Fact(n - 1)
    ensures Granted(n, threads) ==> Serves(n, threads, k)
  {
    if Rising(n - 1, k) <= Fact(n - 1) {
      assert Serves(n, threads, k);
    }
    if i: nat :| Serves(n, threads, i) {
      assert k <= i;
      RisingAscends(n - 1, k, i);
    }
  }

  // Zero means the threads exit at once without searching.
  method GetUpperBdQueueSz(n: nat, threads: nat) returns (size: nat)
    requires n >= 2
    ensures size != 0 <==> Granted(n, threads)
    ensures size != 0 ==> exists k: nat :: Serves(n, threads, k) && size == Rising(n - 1, k)
                                           && TooSmall(n - 1, k, threads)
    ensures size != 0 ==> threads <= size && n - 1 <= size <= Fact(n - 1)
  {
    hide Granted, Serves, TooSmall, Fact;
    var fact := n - 1;
    size := n - 1;
    ghost var k: nat := 0;
    NoneTooSmall(n - 1, threads);
    while size < threads
      invariant size == Rising(n - 1, k) && fact == n - 1 + k
      invariant TooSmall(n - 1, k, threads)
      decreases threads - size
    {
      RisingGrows(n - 1, k);
      NextTooSmall(n - 1, k, threads);
      fact := fact + 1;
      size := size * fact;
      k := k + 1;
    }
    FirstServes(n, threads, k);
    var most := ComputeFact(n - 1);
    if size > most {
      size := 0;
    }
  }

  // The largest of the products from the k-th on that is within the limit.
  function LargestWithin(b: nat, k: nat, limit: nat): (r: nat)
    requires b >= 1 && Rising(b, k) <= limit
    ensures Rising(b, k) <= r <= limit
    decreases limit - Rising(b, k)
  {
    RisingGrows(b, k);
    if Rising(b, k + 1) > limit then Rising(b, k) else LargestWithin(b, k + 1, limit)
  }

  lemma {:induction false} LargestIsProduct(b: nat, k: nat, limit: nat) returns (j: nat)
    requires b >= 1 && Rising(b, k) <= limit
    ensures LargestWithin(b, k, limit) == Rising(b, j) && Rising(b, j + 1) > limit
    decreases limit - Rising(b, k)
  {
    RisingGrows(b, k);
    j := k;
    if Rising(b, k + 1) <= limit {
      j := LargestIsProduct(b, k + 1, limit);
    }
  }

  lemma FactAtLeast(k: nat)
    ensures Fact(k) >= k
  {
    if k > 1 {
      MulAtLeast(k, Fact(k - 1));
    }
  }

  // The most threads the estimate lets through on n cities.
  function MostThreads(n: nat): (r: nat)
    requires n >= 2
    ensures n - 1 <= r <= Fact(n - 1)
  {
    FactAtLeast(n - 1);
    LargestWithin(n - 1, 0, Fact(n - 1))
  }

  // A number of threads is granted iff it is at most that; so the numbers refused although
  // there is a tour for every thread are exactly those between that and (n-1)!.
  lemma GrantedIff(n: nat, threads: nat)
    requires n >= 2
    ensures Granted(n, threads) <==> threads <= MostThreads(n)
    ensures threads <= Fact(n - 1) && !Granted(n, threads) <==> MostThreads(n) < threads <= Fact(n - 1)
  {
    FactAtLeast(n - 1);
    var j := LargestIsProduct(n - 1, 0, Fact(n - 1));
    assert threads <= MostThreads(n) ==> Serves(n, threads, j);
    if k: nat :| Serves(n, threads, k) {
      if k <= j {
        RisingAscends(n - 1, k, j);
      } else {
        RisingAscends(n - 1, j + 1, k);
      }
    }
  }

  // With four cities there are six tours, and four, five or six threads are refused; with eight
  // cities 7 * 8 * 9 * 10 is just 7!, and nobody is refused who could be served.
  lemma SomeAreRefused(threads: nat)
    ensures threads <= Fact(3) && !Granted(4, threads) <==> 4 <= threads <= 6
    ensures Granted(8, threads) <==> threads <= Fact(7)
  {
    assert Fact(3) == 3 * Fact(2) && Fact(2) == 2 * Fact(1);
    assert Fact(7) == 7 * Fact(6) && Fact(6) == 6 * Fact(5) && Fact(5) == 5 * Fact(4) && Fact(4) == 4 * Fact(3);
    FirstProducts(3);
    FirstProducts(7);
    RisingGrows(7, 3);
    assert LargestWithin(7, 1, 5040) == LargestWithin(7, 2, 5040) == LargestWithin(7, 3, 5040);
    GrantedIff(4, threads);
    GrantedIff(8, threads);
  }

  lemma FirstProducts(b: nat)
    ensures Rising(b, 0) == b && Rising(b, 1) == b * (b + 1)
    ensures Rising(b, 2) == b * (b + 1) * (b + 2) && Rising(b, 3) == b * (b + 1) * (b + 2) * (b + 3)
  {
    assert Rising(b, 1) == Rising(b, 0) * (b + 1);
  }
}
