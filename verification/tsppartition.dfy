/**
 Dividing the search: a breadth-first queue of prefixes in a circular buffer, the block of
 it each thread starts on, and the cheapest tour over all processes.
 */
module TspPartition {
  import opened Base
  import opened TspTours
  import opened TspSearch
  import opened TspBounds

  function Fact(k: nat): (f: nat)
    ensures f >= 1
  {
    if k <= 1 then 1 else k * Fact(k - 1)
  }

  // ----- the queue as a sequence -----

  // Prefixes one longer, through each unvisited city of 1..k in turn.
  function Children(g: Graph, t: Tour, k: nat): seq<Tour>
    requires |g.digraph| == g.n * g.n && k < g.n && Sane(g, t)
  {
    if k == 0 then []
    else Children(g, t, k - 1) + if k in t.cities then [] else [Extended(g, t, k)]
  }

  ghost predicate PrefixFree(q: seq<Tour>) {
    forall i, j :: 0 <= i < |q| && 0 <= j < |q| && i != j ==> !(q[i].cities <= q[j].cities)
  }

  ghost predicate Covers(g: Graph, q: seq<Tour>) {
    forall c :: Full(g, c) ==> OnStack(q, c)
  }

  // Lengths rise by at most one from the head of the queue to its tail.
  ghost predicate Levelled(q: seq<Tour>) {
    forall i, j :: 0 <= i <= j < |q| ==> |q[i].cities| <= |q[j].cities| <= |q[0].cities| + 1
  }

  // Full paths through the queue's prefixes, counted.
  function Leaves(g: Graph, q: seq<Tour>): nat {
    if q == [] then 0
    else Leaves(g, q[..|q| - 1]) + Fact(if |q[|q| - 1].cities| <= g.n then g.n - |q[|q| - 1].cities| else 0)
  }

  ghost predicate QueueInv(g: Graph, q: seq<Tour>)
    requires g.Valid()
  {
    && q != []
    && (forall k :: 0 <= k < |q| ==> Prefix(g, q[k]))
    && PrefixFree(q) && Covers(g, q) && Levelled(q)
    && Leaves(g, q) == Fact(g.n - 1)
  }

  const ROOT := Tour([0], 0)

  lemma RootInv(g: Graph)
    requires g.Valid()
    ensures QueueInv(g, [ROOT])
  {
    forall c | Full(g, c)
      ensures OnStack([ROOT], c)
    {
      assert [ROOT][0].cities <= c;
    }
    assert [ROOT][..0] == [];
  }

  // A path leaves unvisited what it is short of.
  lemma {:induction false} UnvisitedOfPath(g: Graph, p: seq<int>)
    requires Path(g, p)
    ensures Unvisited(p, g.n - 1) == g.n - |p|
    decreases |p|
  {
    if |p| == 1 {
      NoneVisited(p, g.n - 1);
    } else {
      var q, c := p[..|p| - 1], p[|p| - 1];
      assert p == q + [c];
      assert c != p[0];
      UnvisitedOfPath(g, q);
      UnvisitedAdd(q, c, g.n - 1);
    }
  }

  lemma {:induction false} NoneVisited(p: seq<int>, k: nat)
    requires p == [0]
    ensures Unvisited(p, k) == k
  {
    if k > 0 {
      NoneVisited(p, k - 1);
    }
  }

  // `kids` are the children of `t` through unvisited cities up to k, in ascending order.
  ghost predicate Brood(g: Graph, t: Tour, kids: seq<Tour>, k: nat)
    requires g.Valid() && Sane(g, t)
  {
    && (forall i :: 0 <= i < |kids| ==> Kid(g, t, kids[i], k))
    && (forall i, j :: 0 <= i < j < |kids| ==> KidCity(t, kids[i]) < KidCity(t, kids[j]))
    && (forall c :: 1 <= c <= k && c < g.n && c !in t.cities ==> Extended(g, t, c) in kids)
  }

  ghost function KidCity(t: Tour, kid: Tour): int {
    if |t.cities| < |kid.cities| then kid.cities[|t.cities|] else 0
  }

  ghost predicate Kid(g: Graph, t: Tour, kid: Tour, k: nat)
    requires g.Valid()
  {
    && Prefix(g, kid)
    && |kid.cities| == |t.cities| + 1 && t.cities <= kid.cities && kid.cities[|t.cities|] <= k
  }

  lemma {:induction false} ChildrenAreBrood(g: Graph, t: Tour, k: nat)
    requires g.Valid() && Prefix(g, t) && |t.cities| < g.n && k < g.n
    ensures |Children(g, t, k)| == Unvisited(t.cities, k)
    ensures Brood(g, t, Children(g, t, k), k)
    decreases k
  {
    hide PathCost;
    if k > 0 {
      ChildrenAreBrood(g, t, k - 1);
      if k !in t.cities {
        ExtendedPrefix(g, t, k);
        BroodGrows(g, t, Children(g, t, k - 1), k);
      }
    }
  }

  lemma BroodGrows(g: Graph, t: Tour, kids: seq<Tour>, k: nat)
    requires g.Valid() && Sane(g, t) && 0 < k < g.n && k !in t.cities
    requires Brood(g, t, kids, k - 1) && Kid(g, t, Extended(g, t, k), k)
    ensures Brood(g, t, kids + [Extended(g, t, k)], k)
  {
    hide Prefix;
    var all := kids + [Extended(g, t, k)];
    assert all[|kids|] == Extended(g, t, k);
    assert forall i :: 0 <= i < |kids| ==> all[i] == kids[i] && Kid(g, t, kids[i], k - 1);
  }

  lemma {:induction false} LeavesAppend(g: Graph, a: seq<Tour>, b: seq<Tour>)
    ensures Leaves(g, a + b) == Leaves(g, a) + Leaves(g, b)
    decreases |b|
  {
    if b == [] {
      assert a + b == a;
    } else {
      LeavesAppend(g, a, b[..|b| - 1]);
      assert (a + b)[..|a + b| - 1] == a + b[..|b| - 1];
    }
  }

  lemma {:induction false} LeavesUniform(g: Graph, q: seq<Tour>, len: nat)
    requires len <= g.n && forall k :: 0 <= k < |q| ==> |q[k].cities| == len
    ensures Leaves(g, q) == |q| * Fact(g.n - len)
    decreases |q|
  {
    if q != [] {
      LeavesUniform(g, q[..|q| - 1], len);
      assert |q| * Fact(g.n - len) == (|q| - 1) * Fact(g.n - len) + Fact(g.n - len);
    }
  }

  // Replacing the head by its children keeps the leaves, the cover and the levels.
  lemma ExpandKeeps(g: Graph, q: seq<Tour>)
    requires g.Valid() && QueueInv(g, q) && |q[0].cities| < g.n
    ensures QueueInv(g, q[1..] + Children(g, q[0], g.n - 1))
  {
    hide Leaves, Fact, PathCost, Brood, Children, Prefix;
    var t, rest := q[0], q[1..];
    assert Prefix(g, t);
    assert Sane(g, t) by { PrefixIsSane(g, t); }
    var kids := Children(g, t, g.n - 1);
    assert q == [t] + rest;
    ChildrenAreBrood(g, t, g.n - 1);
    UnvisitedOfPath(g, t.cities) by { PrefixIsSane(g, t); }
    ExpandLeaves(g, t, rest, kids);
    ExpandCovers(g, t, rest, kids);
    ExpandPrefixFree(g, t, rest, kids);
    ExpandLevelled(g, t, rest, kids);
    ExpandPrefixes(g, t, rest, kids);
  }

  lemma PrefixIsSane(g: Graph, t: Tour)
    requires g.Valid() && Prefix(g, t)
    ensures Sane(g, t) && Path(g, t.cities)
  {
  }

  lemma ExpandPrefixes(g: Graph, t: Tour, rest: seq<Tour>, kids: seq<Tour>)
    requires g.Valid() && Sane(g, t) && Brood(g, t, kids, g.n - 1)
    requires forall k :: 0 <= k < |rest| ==> Prefix(g, rest[k])
    ensures forall k :: 0 <= k < |rest + kids| ==> Prefix(g, (rest + kids)[k])
  {
    hide Prefix;
    assert forall i :: 0 <= i < |kids| ==> Kid(g, t, kids[i], g.n - 1);
  }

  lemma ExpandLevelled(g: Graph, t: Tour, rest: seq<Tour>, kids: seq<Tour>)
    requires g.Valid() && Sane(g, t) && Brood(g, t, kids, g.n - 1)
    requires Levelled([t] + rest)
    ensures Levelled(rest + kids)
  {
    hide Prefix;
    var q, r := [t] + rest, rest + kids;
    assert forall i :: 0 <= i < |rest| ==> r[i] == q[i + 1];
    assert forall i :: 0 <= i < |kids| ==> Kid(g, t, kids[i], g.n - 1);
  }

  lemma ExpandLeaves(g: Graph, t: Tour, rest: seq<Tour>, kids: seq<Tour>)
    requires g.Valid() && Sane(g, t) && |t.cities| < g.n && Brood(g, t, kids, g.n - 1)
    requires |kids| == g.n - |t.cities|
    ensures Leaves(g, rest + kids) == Leaves(g, [t] + rest)
  {
    hide Prefix, Leaves, Fact;
    assert forall i :: 0 <= i < |kids| ==> Kid(g, t, kids[i], g.n - 1);
    LeavesAppend(g, rest, kids);
    LeavesUniform(g, kids, |t.cities| + 1);
    LeavesAppend(g, [t], rest);
    LeavesUniform(g, [t], |t.cities|);
    FactStep(g.n - |t.cities|);
  }

  lemma FactStep(m: nat)
    requires m >= 1
    ensures Fact(m) == m * Fact(m - 1)
  {
  }

  lemma ExpandCovers(g: Graph, t: Tour, rest: seq<Tour>, kids: seq<Tour>)
    requires g.Valid() && Prefix(g, t) && |t.cities| < g.n && Brood(g, t, kids, g.n - 1)
    requires Covers(g, [t] + rest)
    ensures Covers(g, rest + kids)
  {
    hide PathCost;
    var q := [t] + rest;
    forall c | Full(g, c)
      ensures OnStack(rest + kids, c)
    {
      var k :| 0 <= k < |q| && q[k].cities <= c;
      if k > 0 {
        assert (rest + kids)[k - 1] == q[k];
        OnStackAt(rest + kids, k - 1, c);
      } else {
        KidOnPath(g, t, kids, c);
        var i :| 0 <= i < |kids| && kids[i].cities <= c;
        assert (rest + kids)[|rest| + i] == kids[i];
        OnStackAt(rest + kids, |rest| + i, c);
      }
    }
  }

  lemma KidOnPath(g: Graph, t: Tour, kids: seq<Tour>, c: seq<int>)
    requires g.Valid() && Prefix(g, t) && |t.cities| < g.n && Brood(g, t, kids, g.n - 1)
    requires Full(g, c) && t.cities <= c
    ensures OnStack(kids, c)
  {
    hide PathCost;
    var next := c[|t.cities|];
    assert next != c[0];
    ChildPruned(g, t, next, t, c);
    assert Extended(g, t, next) in kids;
    var i :| 0 <= i < |kids| && kids[i] == Extended(g, t, next);
    OnStackAt(kids, i, c);
  }

  // What does not extend the parent, and is no shorter, is no prefix of a child...
  lemma NotBelowKid(t: seq<int>, a: seq<int>, kid: seq<int>)
    requires t <= kid && |t| <= |a| && !(t <= a)
    ensures !(a <= kid)
  {
  }

  // ... nor has a child for a prefix.
  lemma NotAboveKid(t: seq<int>, a: seq<int>, kid: seq<int>)
    requires t <= kid && !(t <= a)
    ensures !(kid <= a)
  {
  }

  lemma ExpandPrefixFree(g: Graph, t: Tour, rest: seq<Tour>, kids: seq<Tour>)
    requires g.Valid() && Sane(g, t) && Brood(g, t, kids, g.n - 1)
    requires PrefixFree([t] + rest) && Levelled([t] + rest)
    ensures PrefixFree(rest + kids)
  {
    hide Prefix;
    var q, r := [t] + rest, rest + kids;
    assert forall i :: 0 <= i < |rest| ==>
        q[i + 1] == rest[i] && !(t.cities <= rest[i].cities) && |t.cities| <= |rest[i].cities|
    by {
      forall i | 0 <= i < |rest|
        ensures q[i + 1] == rest[i] && !(t.cities <= rest[i].cities) && |t.cities| <= |rest[i].cities|
      {
        assert !(q[0].cities <= q[i + 1].cities) && |q[0].cities| <= |q[i + 1].cities|;
      }
    }
    assert forall i :: 0 <= i < |kids| ==> Kid(g, t, kids[i], g.n - 1);
    forall i, j | 0 <= i < |r| && 0 <= j < |r| && i != j
      ensures !(r[i].cities <= r[j].cities)
    {
      if i < |rest| && j < |rest| {
        assert q[i + 1] == r[i] && q[j + 1] == r[j];
      } else if i < |rest| {
        NotBelowKid(t.cities, rest[i].cities, kids[j - |rest|].cities);
      } else if j < |rest| {
        NotAboveKid(t.cities, rest[j].cities, kids[i - |rest|].cities);
      } else {
        var a, b := kids[i - |rest|], kids[j - |rest|];
        assert KidCity(t, a) != KidCity(t, b);
      }
    }
  }

  // While fewer prefixes than full paths are queued, the head is not a full path.
  lemma HeadIsPartial(g: Graph, q: seq<Tour>)
    requires g.Valid() && QueueInv(g, q) && |q| < Fact(g.n - 1)
    ensures |q[0].cities| < g.n
  {
    assert Fact(0) == 1;
    hide PathCost, PrefixFree, Covers, Leaves, Fact;
    if |q[0].cities| == g.n {
      assert forall k :: 0 <= k < |q| ==> |q[k].cities| == g.n;
      LeavesUniform(g, q, g.n);
    }
  }

  // ----- the circular buffer -----

  class Queue {
    const list: array<Tour>
    var head: nat
    var tail: nat
    var full: bool

    ghost predicate InRange()
      reads this, list
    {
      head < list.Length && tail < list.Length
    }

    // The flag is never cleared, so only a queue that was never full keeps this.
    ghost predicate Valid()
      reads this, list
    {
      InRange() && (full ==> head == tail)
    }

    // With the flag set and the indices equal every slot counts.
    ghost function Contents(): seq<Tour>
      requires InRange()
      reads this, list
    {
      if tail < head || (full && head == tail) then list[head..] + list[..tail] else list[head..tail]
    }

    constructor (size: nat)
      requires size > 0
      ensures Valid() && Contents() == [] && fresh(list) && list.Length == size && !full
    {
      list := new Tour[size](_ => ROOT);
      head, tail, full := 0, 0, false;
    }

    // False where the program exits because the queue is full, or once was.
    method Enqueue(t: Tour) returns (ok: bool)
      requires InRange()
      modifies this, list
      ensures InRange() && (old(Valid()) ==> Valid())
      ensures ok <==> !old(full)
      ensures old(Valid()) ==> (ok <==> |old(Contents())| < list.Length)
      ensures Contents() == if ok then old(Contents()) + [t] else old(Contents())
      ensures full <==> old(full) || |Contents()| == list.Length
    {
      if full {
        return false;
      }
      ghost var was := Contents();
      list[tail] := t;
      ModNext(tail, list.Length);
      tail := (tail + 1) % list.Length;
      if tail == head {
        full := true;
      }
      ok := true;
      assert Contents() == was + [t];
    }

    // None where the program exits because the queue is empty. A queue that was full gives its
    // elements up in order but keeps the flag: it refuses every new one, and in place of
    // becoming empty it holds all the old ones again.
    method Dequeue() returns (r: Option<Tour>)
      requires InRange()
      modifies this
      ensures InRange() && full == old(full) && (Valid() <==> !full || head == tail)
      ensures r.None? <==> !old(full) && old(Contents()) == []
      ensures r.Some? ==> old(Contents()) != [] && r.value == old(Contents())[0]
      ensures r.Some? && (!old(full) || |old(Contents())| > 1) ==> Contents() == old(Contents())[1..]
      ensures old(full) && |old(Contents())| == 1 ==> Contents() == list[head..] + list[..head]
    {
      if !full && head == tail {
        return None;
      }
      r := Some(list[head]);
      ModNext(head, list.Length);
      head := (head + 1) % list.Length;
    }
  }

  lemma ModNext(i: nat, n: nat)
    requires i < n
    ensures (i + 1) % n == if i + 1 == n then 0 else i + 1
  {
  }

  // ----- the methods -----

  method ComputeFact(k: nat) returns (f: nat)
    ensures f == Fact(k)
  {
    f := 1;
    var i := 2;
    while i <= k
      invariant 2 <= i && (i <= k + 1 || i == 2)
      invariant f == Fact(i - 1)
    {
      f := f * i;
      i := i + 1;
    }
  }

  // Enqueues the children of a dequeued prefix; the room left is enough, so it never exits.
  method ExpandInto(g: Graph, q: Queue, t: Tour) returns (added: nat)
    requires g.Valid() && Prefix(g, t) && |t.cities| < g.n
    requires q.Valid() && !q.full && |q.Contents()| + g.n - 1 < q.list.Length
    modifies q, q.list
    ensures q.Valid() && !q.full
    ensures q.Contents() == old(q.Contents()) + Children(g, t, g.n - 1)
    ensures added == Unvisited(t.cities, g.n - 1)
  {
    hide PathCost, Queue.Contents, Children, Unvisited, Prefix, Extended;
    PrefixIsSane(g, t);
    ghost var was := q.Contents();
    ChildrenStep(g, t, 0);
    var tour := new TourStruct(g, t);
    added := 0;
    var nbr := 1;
    while nbr < g.n
      invariant 1 <= nbr <= g.n
      invariant fresh(tour) && fresh(tour.cities) && tour.Valid() && tour.g == g && tour.View() == t
      invariant q.Valid() && !q.full
      invariant added == Unvisited(t.cities, nbr - 1)
      invariant |q.Contents()| == |was| + added
      invariant q.Contents() == was + Children(g, t, nbr - 1)
    {
      ChildrenStep(g, t, nbr);
      var seen := tour.Visited(nbr);
      if !seen {
        tour.AddCity(nbr);
        var ok := q.Enqueue(tour.View());
        assert ok;
        added := added + 1;
        tour.RemoveLastCity(t, nbr);
      }
      nbr := nbr + 1;
    }
  }

  // The queue when there is a prefix for each thread: until then the head gives way to its children.
  ghost function BreadthFirst(g: Graph, q: seq<Tour>, threads: nat): (r: seq<Tour>)
    requires g.Valid() && QueueInv(g, q) && threads <= Fact(g.n - 1)
    ensures QueueInv(g, r) && threads <= |r|
    decreases Shortfall(g, q)
  {
    if |q| >= threads then q
    else
      HeadIsPartial(g, q);
      QueueHead(g, q);
      ExpandKeeps(g, q);
      ExpandShortens(g, q);
      BreadthFirst(g, q[1..] + Children(g, q[0], g.n - 1), threads)
  }

  ghost function InitialQueue(g: Graph, threads: nat): seq<Tour>
    requires g.Valid() && threads <= Fact(g.n - 1)
  {
    RootInv(g);
    BreadthFirst(g, [ROOT], threads)
  }

  // The breadth-first loop. It reaches neither exit, and ends with a prefix-free cover of all
  // full paths that has at least one prefix for each thread.
  method BuildInitialQueue(g: Graph, threads: nat, queueSize: nat) returns (q: Queue, count: nat)
    requires g.Valid() && g.n >= 2 && 1 <= threads <= Fact(g.n - 1)
    requires threads <= queueSize && g.n - 1 <= queueSize
    ensures q.Valid() && !q.full && fresh(q) && fresh(q.list)
    ensures q.Contents() == InitialQueue(g, threads)
    ensures QueueInv(g, q.Contents()) && |q.Contents()| == count
    ensures threads <= count && (count == 1 || count <= threads + g.n - 3)
  {
    hide QueueInv, Prefix, Fact, Children, Unvisited, StackWeight, Queue.Contents;
    q := new Queue(2 * queueSize);
    var ok := q.Enqueue(ROOT);
    assert q.Contents() == [ROOT];
    RootInv(g);
    count := 1;
    while count < threads
      invariant fresh(q) && fresh(q.list) && q.list.Length == 2 * queueSize
      invariant q.Valid() && !q.full && |q.Contents()| == count
      invariant QueueInv(g, q.Contents())
      invariant BreadthFirst(g, q.Contents(), threads) == InitialQueue(g, threads)
      invariant count == 1 || count <= threads + g.n - 3
      decreases Shortfall(g, q.Contents())
    {
      ghost var was := q.Contents();
      HeadIsPartial(g, was);
      QueueHead(g, was);
      var head := q.Dequeue();
      assert head.Some?;
      count := count - 1;
      var added := ExpandInto(g, q, head.value);
      count := count + added;
      ExpandKeeps(g, was);
      ExpandShortens(g, was);
    }
  }

  lemma QueueHead(g: Graph, q: seq<Tour>)
    requires g.Valid() && QueueInv(g, q) && |q[0].cities| < g.n
    ensures q != [] && Prefix(g, q[0]) && Sane(g, q[0])
    ensures |Children(g, q[0], g.n - 1)| == Unvisited(q[0].cities, g.n - 1) <= g.n - 1
  {
    hide Leaves, PathCost;
    ChildrenAreBrood(g, q[0], g.n - 1);
  }

  // How far the queue's prefixes are from full paths, weighed by what expanding them costs.
  ghost function Shortfall(g: Graph, q: seq<Tour>): nat
    requires g.n > 0
  {
    StackWeight(g.n, q)
  }

  lemma ExpandShortens(g: Graph, q: seq<Tour>)
    requires g.Valid() && QueueInv(g, q) && |q[0].cities| < g.n
    ensures Shortfall(g, q[1..] + Children(g, q[0], g.n - 1)) < Shortfall(g, q)
  {
    hide *;
    HeadIsPath(g, q);
    var t, rest := q[0], q[1..];
    StackWeightCons(g.n, t, rest);
    assert [t] + rest == q;
    StackWeightAppend(g, rest, t, g.n - 1);
    UnvisitedOfPath(g, t.cities);
    TourStep(g.n, t);
    ShortfallIs(g, q);
    ShortfallIs(g, rest + Children(g, t, g.n - 1));
  }

  lemma HeadIsPath(g: Graph, q: seq<Tour>)
    requires g.Valid() && QueueInv(g, q)
    ensures |g.digraph| == g.n * g.n && q != [] && g.n > 0 && Sane(g, q[0]) && Prefix(g, q[0]) && Path(g, q[0].cities)
  {
    hide Leaves, Fact, PathCost;
  }

  lemma ShortfallIs(g: Graph, q: seq<Tour>)
    requires g.n > 0
    ensures Shortfall(g, q) == StackWeight(g.n, q)
  {
  }

  lemma TourStep(n: nat, t: Tour)
    requires n > 0 && Unvisited(t.cities, n - 1) >= 1
    ensures TourWeight(n, t) > Unvisited(t.cities, n - 1) * ChildWeight(n, t)
  {
    hide Unvisited;
    WeightStep(n, Unvisited(t.cities, n - 1));
  }

  lemma WeightStep(n: nat, m: nat)
    requires m >= 1
    ensures Weight(n, m) > m * Weight(n, m - 1)
  {
  }

  lemma ChildWeighs(g: Graph, t: Tour, k: nat)
    requires g.Valid() && Prefix(g, t) && 0 < k < g.n && k !in t.cities
    ensures TourWeight(g.n, Extended(g, t, k)) == ChildWeight(g.n, t)
  {
    hide Weight, PathCost;
    UnvisitedAdd(t.cities, k, g.n - 1);
    UnvisitedMonotone(t.cities, k, g.n - 1);
  }

  lemma ChildrenStep(g: Graph, t: Tour, k: nat)
    requires g.Valid() && Sane(g, t) && k < g.n
    ensures k == 0 ==> Children(g, t, k) == [] && Unvisited(t.cities, k) == 0
    ensures k > 0 ==> Unvisited(t.cities, k) == Unvisited(t.cities, k - 1) + if k in t.cities then 0 else 1
    ensures k > 0 && k in t.cities ==> Children(g, t, k) == Children(g, t, k - 1)
    ensures k > 0 && k !in t.cities ==> Children(g, t, k) == Children(g, t, k - 1) + [Extended(g, t, k)]
  {
  }

  lemma OneMore(m: nat, w: nat)
    ensures (m + 1) * w == m * w + w
  {
  }

  lemma {:induction false} StackWeightAppend(g: Graph, rest: seq<Tour>, t: Tour, k: nat)
    requires g.Valid() && Prefix(g, t) && |t.cities| < g.n && k < g.n
    ensures StackWeight(g.n, rest + Children(g, t, k)) ==
            StackWeight(g.n, rest) + Unvisited(t.cities, k) * ChildWeight(g.n, t)
    decreases k
  {
    hide Weight, PathCost, StackWeight, TourWeight, ChildWeight, Prefix, Children;
    assert Sane(g, t) by { PrefixIsSane(g, t); }
    ChildrenStep(g, t, k);
    if k == 0 {
      assert rest + Children(g, t, k) == rest;
    } else {
      StackWeightAppend(g, rest, t, k - 1);
      var before, w := Unvisited(t.cities, k - 1), ChildWeight(g.n, t);
      if k !in t.cities {
        ChildWeighs(g, t, k);
        StackWeightPush(g.n, rest + Children(g, t, k - 1), Extended(g, t, k));
        assert rest + Children(g, t, k) == rest + Children(g, t, k - 1) + [Extended(g, t, k)];
        OneMore(before, w);
      }
    }
  }

  // ----- blocks -----

  // First and last index of a thread's block; an empty block ends before it begins.
  function SetInitTours(rank: nat, count: nat, threads: nat): (int, int)
    requires rank < threads
  {
    var quotient, remainder := count / threads, count % threads;
    if rank < remainder then (rank * (quotient + 1), rank * (quotient + 1) + quotient)
    else (rank * quotient + remainder, rank * quotient + remainder + quotient - 1)
  }

  // Where the blocks of ranks below `rank` end.
  function BlockStart(rank: nat, count: nat, threads: nat): (b: nat)
    requires rank <= threads && threads > 0
  {
    rank * (count / threads) + if rank < count % threads then rank else count % threads
  }

  lemma BlockIsInterval(rank: nat, count: nat, threads: nat)
    requires rank < threads
    ensures SetInitTours(rank, count, threads) ==
            (BlockStart(rank, count, threads), BlockStart(rank + 1, count, threads) - 1)
  {
    var q := count / threads;
    assert (rank + 1) * q == rank * q + q;
    assert rank * (q + 1) == rank * q + rank;
  }

  lemma BlocksSpan(count: nat, threads: nat)
    requires threads > 0
    ensures BlockStart(0, count, threads) == 0 && BlockStart(threads, count, threads) == count
  {
    assert threads * (count / threads) + count % threads == count;
  }

  lemma {:induction false} BlocksAscend(i: nat, j: nat, count: nat, threads: nat)
    requires i <= j <= threads && threads > 0
    ensures BlockStart(i, count, threads) <= BlockStart(j, count, threads)
    decreases j
  {
    if i < j {
      BlocksAscend(i, j - 1, count, threads);
      var q := count / threads;
      assert j * q == (j - 1) * q + q;
    }
  }

  ghost predicate InBlock(k: int, rank: nat, count: nat, threads: nat)
    requires rank < threads
  {
    SetInitTours(rank, count, threads).0 <= k <= SetInitTours(rank, count, threads).1
  }

  // Every queue position is in the block of exactly one thread.
  lemma BlocksPartition(k: nat, count: nat, threads: nat) returns (owner: nat)
    requires threads > 0 && k < count
    ensures owner < threads && InBlock(k, owner, count, threads)
    ensures forall rank: nat :: rank < threads && InBlock(k, rank, count, threads) ==> rank == owner
  {
    hide BlockStart, SetInitTours;
    BlocksSpan(count, threads);
    owner := 0;
    while BlockStart(owner + 1, count, threads) <= k
      invariant owner < threads && BlockStart(owner, count, threads) <= k
      decreases threads - owner
    {
      owner := owner + 1;
    }
    BlockIsInterval(owner, count, threads);
    forall rank: nat | rank < threads && InBlock(k, rank, count, threads)
      ensures rank == owner
    {
      BlockIsInterval(rank, count, threads);
      if rank < owner {
        BlocksAscend(rank + 1, owner, count, threads);
      } else if owner < rank {
        BlocksAscend(owner + 1, rank, count, threads);
      }
    }
  }

  // The blocks are as even as can be, the longer ones first: no block is longer than an earlier
  // one, nor shorter than it by more than one.
  lemma BlocksAreEven(i: nat, j: nat, count: nat, threads: nat)
    requires i < j < threads
    ensures
      var (from, to), (from', to') := SetInitTours(i, count, threads), SetInitTours(j, count, threads);
      to' - from' <= to - from <= to' - from' + 1
  {
  }

  // No thread starts with more than n prefixes.
  lemma BlockIsSmall(rank: nat, n: nat, count: nat, threads: nat)
    requires rank < threads && n >= 2 && (count == 1 || count <= threads + n - 3)
    ensures 0 <= BlockStart(rank, count, threads) <= BlockStart(rank + 1, count, threads) <= count
    ensures BlockStart(rank + 1, count, threads) - BlockStart(rank, count, threads) <= n
  {
    BlocksAscend(rank, rank + 1, count, threads);
    BlocksAscend(rank + 1, threads, count, threads);
    BlocksSpan(count, threads);
    var q := count / threads;
    assert (rank + 1) * q == rank * q + q;
    QuotientSmall(n, count, threads);
  }

  lemma QuotientSmall(n: nat, count: nat, threads: nat)
    requires threads > 0 && n >= 2 && (count == 1 || count <= threads + n - 3)
    ensures count / threads + 1 <= n
  {
    var q := count / threads;
    assert q * threads <= count;
    if q > 0 {
      ProductBound(q, threads);
    }
  }

  lemma ProductBound(a: nat, b: nat)
    requires a > 0 && b > 0
    ensures a * b >= a + b - 1
  {
    if b > 1 {
      ProductBound(a, b - 1);
      assert a * b == a * (b - 1) + a;
    }
  }

  // ----- all processes -----

  function Reverse(s: seq<Tour>): (r: seq<Tour>)
    ensures |r| == |s| && forall k :: 0 <= k < |s| ==> r[k] == s[|s| - 1 - k]
  {
    if s == [] then [] else Reverse(s[1..]) + [s[0]]
  }

  // Partition_tree pushes the thread's block from its last prefix to its first.
  function InitialStack(q: seq<Tour>, rank: nat, threads: nat): seq<Tour>
    requires rank < threads
  {
    var from, to := BlockStart(rank, |q|, threads), BlockStart(rank + 1, |q|, threads);
    if from <= to <= |q| then Reverse(q[from..to]) else []
  }

  // The first prefix of the block is on top, the others below it in the order of the queue.
  lemma StackInQueueOrder(q: seq<Tour>, rank: nat, threads: nat, k: nat)
    requires rank < threads && InBlock(k, rank, |q|, threads) && k < |q|
    ensures
      var (stack, first) := (InitialStack(q, rank, threads), SetInitTours(rank, |q|, threads).0);
      0 <= first <= k && |stack| == SetInitTours(rank, |q|, threads).1 - first + 1
      && |stack| - 1 - (k - first) >= 0 && stack[|stack| - 1 - (k - first)] == q[k]
  {
    hide BlockStart, SetInitTours;
    BlockIsInterval(rank, |q|, threads);
    BlocksSpan(|q|, threads);
    BlocksAscend(0, rank, |q|, threads);
    BlocksAscend(rank + 1, threads, |q|, threads);
  }

  // Process `p` runs the threads of global rank p * per to p * per + per - 1.
  function InitialState(q: seq<Tour>, p: nat, per: nat, processes: nat): State
    requires p < processes && per > 0
  {
    State(NO_TOUR, seq(per, r requires 0 <= r < per =>
      RankInRange(p, r, per, processes);
      Thread(InitialStack(q, p * per + r, per * processes), Ready)))
  }

  lemma RankInRange(p: nat, r: nat, per: nat, processes: nat)
    requires p < processes && r < per
    ensures 0 <= p * per + r < per * processes
  {
    assert (p + 1) * per <= processes * per;
  }

  lemma OnInitialStack(q: seq<Tour>, rank: nat, threads: nat, c: seq<int>, k: nat)
    requires rank < threads && k < |q| && InBlock(k, rank, |q|, threads) && q[k].cities <= c
    ensures OnStack(InitialStack(q, rank, threads), c)
  {
    hide BlockStart, SetInitTours;
    BlockIsInterval(rank, |q|, threads);
    BlocksSpan(|q|, threads);
    BlocksAscend(rank + 1, threads, |q|, threads);
    var from, to := BlockStart(rank, |q|, threads), BlockStart(rank + 1, |q|, threads);
    var block := q[from..to];
    assert block[k - from] == q[k];
    OnStackAt(Reverse(block), |block| - 1 - (k - from), c);
  }

  lemma FromInitialStack(q: seq<Tour>, rank: nat, threads: nat, c: seq<int>) returns (k: nat)
    requires rank < threads && OnStack(InitialStack(q, rank, threads), c)
    ensures k < |q| && InBlock(k, rank, |q|, threads) && q[k].cities <= c
  {
    hide BlockStart, SetInitTours;
    BlockIsInterval(rank, |q|, threads);
    var from, to := BlockStart(rank, |q|, threads), BlockStart(rank + 1, |q|, threads);
    var block := q[from..to];
    var i :| 0 <= i < |block| && Reverse(block)[i].cities <= c;
    k := from + |block| - 1 - i;
    assert block[|block| - 1 - i] == q[k];
  }

  lemma Shorter(a: seq<int>, b: seq<int>, c: seq<int>)
    requires a <= c && b <= c && |a| <= |b|
    ensures a <= b
  {
  }

  lemma OnlyPrefix(q: seq<Tour>, j: nat, k: nat, c: seq<int>)
    requires PrefixFree(q) && j < |q| && k < |q| && q[j].cities <= c && q[k].cities <= c
    ensures j == k
  {
    if |q[j].cities| <= |q[k].cities| {
      Shorter(q[j].cities, q[k].cities, c);
    } else {
      Shorter(q[k].cities, q[j].cities, c);
    }
  }

  // Every full path starts out on the stack of exactly one thread of exactly one process.
  lemma ExactPartition(g: Graph, q: seq<Tour>, threads: nat, c: seq<int>) returns (owner: nat)
    requires g.Valid() && QueueInv(g, q) && threads > 0 && Full(g, c)
    ensures owner < threads && OnStack(InitialStack(q, owner, threads), c)
    ensures forall rank: nat :: rank < threads && OnStack(InitialStack(q, rank, threads), c) ==> rank == owner
  {
    hide Leaves, Levelled, PathCost, InitialStack, SetInitTours;
    var k :| 0 <= k < |q| && q[k].cities <= c;
    owner := BlocksPartition(k, |q|, threads);
    OnInitialStack(q, owner, threads, c, k);
    forall rank: nat | rank < threads && OnStack(InitialStack(q, rank, threads), c)
      ensures rank == owner
    {
      var j := FromInitialStack(q, rank, threads, c);
      OnlyPrefix(q, j, k, c);
    }
  }

  // The initial states meet what the search asks of a start: prefixes, and at most n a thread.
  lemma InitialIsStart(g: Graph, q: seq<Tour>, p: nat, per: nat, processes: nat)
    requires g.Valid() && g.n >= 2 && QueueInv(g, q) && p < processes && per > 0
    requires |q| == 1 || |q| <= per * processes + g.n - 3
    ensures Start(g, InitialState(q, p, per, processes))
    ensures forall i :: 0 <= i < per ==> |InitialState(q, p, per, processes).threads[i].stack| <= g.n
  {
    hide QueueInv, Prefix, BlockStart, InitialStack;
    var s := InitialState(q, p, per, processes);
    forall i | 0 <= i < per
      ensures ThreadShape(g, s.threads[i], s.best) && |s.threads[i].stack| <= g.n
    {
      RankInRange(p, i, per, processes);
      InitialStackPrefixes(g, q, p * per + i, per * processes);
    }
  }

  lemma InitialStackPrefixes(g: Graph, q: seq<Tour>, rank: nat, threads: nat)
    requires g.Valid() && g.n >= 2 && QueueInv(g, q) && rank < threads
    requires |q| == 1 || |q| <= threads + g.n - 3
    ensures |InitialStack(q, rank, threads)| <= g.n
    ensures forall k :: 0 <= k < |InitialStack(q, rank, threads)| ==> Prefix(g, InitialStack(q, rank, threads)[k])
  {
    hide Prefix, Leaves, BlockStart;
    BlockIsSmall(rank, g.n, |q|, threads);
  }

  // Get_global_best_tour: the cheapest of the processes' best tours, the lowest rank on ties.
  method GetGlobalBestTour(bests: seq<Tour>) returns (best: Tour)
    requires bests != []
    ensures best in bests && forall p :: 0 <= p < |bests| ==> best.cost <= bests[p].cost
    ensures exists r :: 0 <= r < |bests| && best == bests[r] && forall p :: 0 <= p < r ==> best.cost < bests[p].cost
  {
    best := bests[0];
    ghost var r := 0;
    for p := 1 to |bests|
      invariant 0 <= r < p && best == bests[r]
      invariant forall i :: 0 <= i < p ==> best.cost <= bests[i].cost
      invariant forall i :: 0 <= i < r ==> best.cost < bests[i].cost
    {
      if bests[p].cost < best.cost {
        best, r := bests[p], p;
      }
    }
  }

  // The whole program: whatever each process's threads do, the cheapest of the processes'
  // best tours is a cheapest Hamiltonian cycle, unless none costs less than INFINITY.
  lemma ProgramIsOptimal(g: Graph, q: seq<Tour>, per: nat, processes: nat, runs: seq<seq<Action>>, ends: seq<State>,
                         best: Tour)
    requires g.Valid() && g.n >= 2 && QueueInv(g, q) && per > 0 && processes > 0
    requires |q| == 1 || |q| <= per * processes + g.n - 3
    requires |runs| == |ends| == processes
    requires forall p :: 0 <= p < processes ==>
               Runs(g, InitialState(q, p, per, processes), runs[p], ends[p], true) && Done(ends[p])
    requires exists p :: 0 <= p < processes && best == ends[p].best
    requires forall p :: 0 <= p < processes ==> best.cost <= ends[p].best.cost
    ensures Optimal(g, best, iset c | Full(g, c))
  {
    hide QueueInv, Runs, InitialState, PathCost;
    forall p | 0 <= p < processes
      ensures Optimal(g, ends[p].best, iset c | Full(g, c) && Covered(InitialState(q, p, per, processes), c))
    {
      InitialIsStart(g, q, p, per, processes);
      SearchIsOptimal(g, InitialState(q, p, per, processes), runs[p], ends[p],
                      iset c | Full(g, c) && Covered(InitialState(q, p, per, processes), c));
    }
    forall c | Full(g, c)
      ensures ClosedCost(g, c) >= best.cost
    {
      var p := SomeProcess(g, q, per, processes, c);
    }
  }

  lemma QuotientBelow(p: nat, per: nat, processes: nat)
    requires p * per < per * processes
    ensures p < processes
  {
    if processes <= p {
      MulMonotone(processes, p, per);
    }
  }

  lemma MulMonotone(a: nat, b: nat, c: nat)
    requires a <= b
    ensures a * c <= b * c
  {
    assert (b - a) * c >= 0;
  }

  lemma SomeProcess(g: Graph, q: seq<Tour>, per: nat, processes: nat, c: seq<int>) returns (p: nat)
    requires g.Valid() && QueueInv(g, q) && per > 0 && processes > 0 && Full(g, c)
    ensures p < processes && Covered(InitialState(q, p, per, processes), c)
  {
    hide QueueInv, Full, InitialStack, PathCost;
    assert per * processes > 0;
    var owner := ExactPartition(g, q, per * processes, c);
    p := owner / per;
    var r := owner % per;
    assert owner == p * per + r;
    QuotientBelow(p, per, processes);
    CoveredAt(InitialState(q, p, per, processes), r, c);
  }
}
