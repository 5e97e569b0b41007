/** Digraphs of travel costs, partial tours and their costs, and the tour struct updated in place. */
module TspTours {

  // Costs as one row-major array; city 0 is the home town.
  datatype Graph = Graph(n: nat, digraph: seq<int>) {
    // What Read_digraph admits.
    ghost predicate Valid() {
      && n > 0
      && |digraph| == n * n
      && forall a, b :: 0 <= a < n && 0 <= b < n ==>
           if a == b then Cost(a, b) == 0 else Cost(a, b) > 0
    }

    function Cost(a: int, b: int): int
      requires 0 <= a < n && 0 <= b < n && |digraph| == n * n
    {
      IndexInRange(a, b, n);
      digraph[a * n + b]
    }
  }

  lemma IndexInRange(a: int, b: int, n: int)
    requires 0 <= a < n && 0 <= b < n
    ensures 0 <= a * n + b < n * n
  {
    assert (a + 1) * n <= n * n;
  }

  const INFINITY := 1000000

  // The first `count` cities of a tour and its running cost.
  datatype Tour = Tour(cities: seq<int>, cost: int)

  ghost predicate Distinct(s: seq<int>) {
    forall i, j :: 0 <= i < j < |s| ==> s[i] != s[j]
  }

  // A path from home through distinct cities.
  ghost predicate Path(g: Graph, p: seq<int>) {
    && 1 <= |p| <= g.n
    && p[0] == 0
    && Distinct(p)
    && forall i :: 0 <= i < |p| ==> 0 <= p[i] < g.n
  }

  ghost predicate Full(g: Graph, p: seq<int>) {
    Path(g, p) && |p| == g.n
  }

  ghost function PathCost(g: Graph, p: seq<int>): int
    requires |g.digraph| == g.n * g.n && forall i :: 0 <= i < |p| ==> 0 <= p[i] < g.n
  {
    if |p| <= 1 then 0
    else PathCost(g, p[..|p| - 1]) + g.Cost(p[|p| - 2], p[|p| - 1])
  }

  // The cost of the Hamiltonian cycle a full path closes into.
  ghost function ClosedCost(g: Graph, p: seq<int>): int
    requires g.Valid() && Full(g, p)
  {
    PathCost(g, p) + g.Cost(p[|p| - 1], 0)
  }

  ghost predicate Prefix(g: Graph, t: Tour)
    requires g.Valid()
  {
    Path(g, t.cities) && t.cost == PathCost(g, t.cities)
  }

  function Extended(g: Graph, t: Tour, city: int): Tour
    requires |g.digraph| == g.n * g.n && |t.cities| > 0
    requires 0 <= t.cities[|t.cities| - 1] < g.n && 0 <= city < g.n
  {
    Tour(t.cities + [city], t.cost + g.Cost(t.cities[|t.cities| - 1], city))
  }

  lemma ExtendedPrefix(g: Graph, t: Tour, city: int)
    requires g.Valid() && Prefix(g, t) && 0 <= city < g.n && city !in t.cities && |t.cities| < g.n
    ensures Prefix(g, Extended(g, t, city))
  {
    var p := t.cities + [city];
    assert p[..|p| - 1] == t.cities;
  }

  // Costs are nonnegative, so extending a path never makes it cheaper.
  lemma {:induction false} PathCostMonotone(g: Graph, p: seq<int>, q: seq<int>)
    requires g.Valid() && p <= q && forall i :: 0 <= i < |q| ==> 0 <= q[i] < g.n
    ensures PathCost(g, p) <= PathCost(g, q)
    decreases |q|
  {
    if p != q && |q| > 1 {
      PathCostMonotone(g, p, q[..|q| - 1]);
    }
  }

  lemma PrefixBound(g: Graph, t: Tour, c: seq<int>)
    requires g.Valid() && Prefix(g, t) && Full(g, c) && t.cities <= c
    ensures t.cost <= ClosedCost(g, c)
  {
    PathCostMonotone(g, t.cities, c);
    assert g.Cost(c[|c| - 1], 0) >= 0;
  }

  // A path visiting every city contains each of them.
  lemma {:induction false} FullVisitsAll(g: Graph, p: seq<int>, c: int)
    requires Full(g, p) && 0 <= c < g.n
    ensures c in p
  {
    if c !in p {
      Pigeonhole(p, UpTo(g.n) - {c});
    }
  }

  ghost function UpTo(n: nat): (s: set<int>)
    ensures |s| == n
    ensures forall i :: i in s <==> 0 <= i < n
  {
    if n == 0 then {} else UpTo(n - 1) + {n - 1}
  }

  lemma {:induction false} Pigeonhole(p: seq<int>, s: set<int>)
    requires Distinct(p) && forall i :: 0 <= i < |p| ==> p[i] in s
    ensures |p| <= |s|
  {
    if |p| > 0 {
      var q := p[..|p| - 1];
      Pigeonhole(q, s - {p[|p| - 1]});
    }
  }

  // ----- the struct -----

  class TourStruct {
    const g: Graph
    const cities: array<int>
    var count: nat
    var cost: int

    ghost predicate Valid()
      reads this, cities
    {
      && g.Valid() && cities.Length == g.n + 1
      && 1 <= count <= cities.Length
      && forall i :: 0 <= i < count ==> 0 <= cities[i] < g.n
    }

    // What Copy_tour copies.
    function View(): Tour
      requires count <= cities.Length
      reads this, cities
    {
      Tour(cities[..count], cost)
    }

    // Alloc_tour and Copy_tour.
    constructor (g: Graph, t: Tour)
      requires g.Valid() && 1 <= |t.cities| <= g.n + 1
      requires forall i :: 0 <= i < |t.cities| ==> 0 <= t.cities[i] < g.n
      ensures Valid() && fresh(cities) && this.g == g && View() == t
    {
      this.g := g;
      cities := new int[g.n + 1];
      count, cost := |t.cities|, t.cost;
      new;
      for i := 0 to |t.cities|
        invariant cities[..i] == t.cities[..i]
        invariant count == |t.cities| && cost == t.cost
      {
        cities[i] := t.cities[i];
      }
    }

    method AddCity(city: int)
      requires Valid() && count < cities.Length && 0 <= city < g.n
      modifies this, cities
      ensures Valid() && View() == Extended(g, old(View()), city)
    {
      ghost var was := cities[..count];
      var last := cities[count - 1];
      cities[count] := city;
      count := count + 1;
      cost := cost + g.Cost(last, city);
      assert cities[..count] == was + [city];
    }

    // Undoes AddCity: cities, count and cost are exactly what they were.
    method RemoveLastCity(ghost before: Tour, ghost city: int)
      requires Valid() && |before.cities| >= 1 && 0 <= city < g.n
      requires 0 <= before.cities[|before.cities| - 1] < g.n
      requires View() == Extended(g, before, city)
      modifies this, cities
      ensures Valid() && View() == before
    {
      assert count == |before.cities| + 1;
      assert cities[..count][count - 1] == city;
      assert cities[..count][count - 2] == before.cities[count - 2];
      var removed := cities[count - 1];
      cities[count - 1] := -1;
      count := count - 1;
      cost := cost - g.Cost(cities[count - 1], removed);
      assert cities[..count] == before.cities;
    }

    method Visited(city: int) returns (seen: bool)
      requires Valid()
      ensures seen <==> city in View().cities
    {
      for i := 0 to count
        invariant city !in cities[..i]
      {
        if cities[i] == city {
          return true;
        }
      }
      return false;
    }
  }
}
