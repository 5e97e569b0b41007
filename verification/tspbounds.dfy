/** Every run of the search is finite and ends with no work left, and its stacks stay within their allocation. */
module TspBounds {
  import opened TspTours
  import opened TspSearch

  // ----- weights -----

  // Cities among 1..k that are not on the path.
  function Unvisited(p: seq<int>, k: nat): (m: nat)
    ensures m <= k
  {
    if k == 0 then 0 else Unvisited(p, k - 1) + if k in p then 0 else 1
  }

  lemma {:induction false} UnvisitedAdd(p: seq<int>, c: int, k: nat)
    requires c > 0 && c !in p
    ensures Unvisited(p + [c], k) == Unvisited(p, k) - if c <= k then 1 else 0
    decreases k
  {
    if k > 0 {
      UnvisitedAdd(p, c, k - 1);
    }
  }

  lemma {:induction false} UnvisitedMonotone(p: seq<int>, j: nat, k: nat)
    requires j <= k
    ensures Unvisited(p, j) <= Unvisited(p, k)
    decreases k - j
  {
    if j < k {
      UnvisitedMonotone(p, j, k - 1);
    }
  }

  // Steps a stacked prefix with m unvisited cities can still cause.
  function Weight(n: nat, m: nat): (w: nat)
    ensures w >= 4
  {
    if m == 0 then n + 4 else n + 4 + m * Weight(n, m - 1)
  }

  function TourWeight(n: nat, t: Tour): nat
    requires n > 0
  {
    Weight(n, Unvisited(t.cities, n - 1))
  }

  function ChildWeight(n: nat, t: Tour): nat
    requires n > 0
  {
    var m := Unvisited(t.cities, n - 1);
    if m == 0 then 0 else Weight(n, m - 1)
  }

  function PhaseWeight(n: nat, ph: Phase): nat
    requires n > 0
  {
    match ph
    case Ready => 0
    case Expanding(t, nbr) => nbr + 1 + Unvisited(t.cities, nbr) * ChildWeight(n, t)
    case Updating(_) => 2
    case Closing(_) => 1
  }

  function StackWeight(n: nat, stack: seq<Tour>): nat
    requires n > 0
  {
    if stack == [] then 0 else StackWeight(n, stack[..|stack| - 1]) + TourWeight(n, stack[|stack| - 1])
  }

  function ThreadWeight(n: nat, th: Thread): nat
    requires n > 0
  {
    StackWeight(n, th.stack) + PhaseWeight(n, th.phase)
  }

  // Twice the weight, plus one for each waiting thread.
  function ThreadMeasure(n: nat, th: Thread): nat
    requires n > 0
  {
    2 * ThreadWeight(n, th) + if th == Thread([], Ready) then 1 else 0
  }

  function Measure(n: nat, threads: seq<Thread>): nat
    requires n > 0
  {
    if threads == [] then 0 else Measure(n, threads[1..]) + ThreadMeasure(n, threads[0])
  }

  lemma {:induction false} MeasureUpdate(n: nat, threads: seq<Thread>, i: nat, th: Thread)
    requires n > 0 && i < |threads|
    ensures Measure(n, threads[i := th]) ==
            Measure(n, threads) - ThreadMeasure(n, threads[i]) + ThreadMeasure(n, th)
    decreases |threads|
  {
    hide ThreadMeasure;
    if i > 0 {
      MeasureUpdate(n, threads[1..], i - 1, th);
      assert threads[i := th][1..] == threads[1..][i - 1 := th];
    } else {
      assert threads[i := th][1..] == threads[1..];
    }
  }

  lemma StackWeightPush(n: nat, stack: seq<Tour>, t: Tour)
    requires n > 0
    ensures StackWeight(n, stack + [t]) == StackWeight(n, stack) + TourWeight(n, t)
  {
    assert (stack + [t])[..|stack|] == stack;
  }

  lemma {:induction false} StackWeightCons(n: nat, t: Tour, stack: seq<Tour>)
    requires n > 0
    ensures StackWeight(n, [t] + stack) == TourWeight(n, t) + StackWeight(n, stack)
    decreases |stack|
  {
    if stack == [] {
      StackWeightPush(n, [], t);
      assert [] + [t] == [t] + stack;
    } else {
      var last := |stack| - 1;
      StackWeightCons(n, t, stack[..last]);
      StackWeightPush(n, [t] + stack[..last], stack[last]);
      assert [t] + stack[..last] + [stack[last]] == [t] + stack;
    }
  }

  lemma {:induction false} StackWeightSplit(n: nat, stack: seq<Tour>)
    requires n > 0
    ensures StackWeight(n, Evens(stack)) + StackWeight(n, Odds(stack)) == StackWeight(n, stack)
    decreases |stack|
  {
    if |stack| >= 1 {
      assert stack == [stack[0]] + stack[1..];
      StackWeightCons(n, stack[0], stack[1..]);
      StackWeightSplit(n, stack[1..]);
      if |stack| >= 2 {
        assert stack[1..][1..] == stack[2..];
        StackWeightCons(n, stack[0], Evens(stack[2..]));
      } else {
        StackWeightCons(n, stack[0], []);
      }
    }
  }

  // ----- termination -----

  // Popping trades a prefix for the work of expanding it.
  lemma PopLightens(g: Graph, th: Thread, best: Tour)
    requires g.Valid() && ThreadShape(g, th, best) && th.phase.Ready? && th.stack != []
    ensures ThreadWeight(g.n, Act(g, th, best).0) < ThreadWeight(g.n, th)
  {
  }

  // Considering a neighbour trades its part of that work for the child, or drops it.
  lemma ConsiderLightens(g: Graph, th: Thread, best: Tour)
    requires g.Valid() && ThreadShape(g, th, best) && th.phase.Expanding?
    ensures ThreadWeight(g.n, Act(g, th, best).0) < ThreadWeight(g.n, th)
  {
    hide PathCost, Weight;
    var t, nbr := th.phase.t, th.phase.nbr;
    if nbr > 0 {
      var below, w := Unvisited(t.cities, nbr - 1), ChildWeight(g.n, t);
      if nbr in t.cities {
      } else {
        assert (below + 1) * w == below * w + w;
        if Feasible(g, t, nbr, best) {
          var child := Extended(g, t, nbr);
          UnvisitedAdd(t.cities, nbr, g.n - 1);
          UnvisitedMonotone(t.cities, nbr, g.n - 1);
          assert TourWeight(g.n, child) == w;
          StackWeightPush(g.n, th.stack, child);
        }
      }
    }
  }

  lemma ActLightens(g: Graph, th: Thread, best: Tour)
    requires g.Valid() && ThreadShape(g, th, best) && (th.phase.Ready? ==> th.stack != [])
    ensures ThreadWeight(g.n, Act(g, th, best).0) < ThreadWeight(g.n, th)
  {
    match th.phase
    case Ready => PopLightens(g, th, best);
    case Expanding(_, _) => ConsiderLightens(g, th, best);
    case _ =>
  }

  // Every step, a split included, lowers the measure.
  lemma StepDecreases(g: Graph, s: State, a: Action)
    requires g.Valid() && Shape(g, s) && Enabled(s, a)
    ensures Measure(g.n, Apply(g, s, a).threads) < Measure(g.n, s.threads)
  {
    hide Act, ThreadWeight, PathCost, Measure;
    if a.Split? {
      SplitDecreases(g.n, s.threads, a.i, a.j);
    } else {
      var th := s.threads[a.i];
      ActLightens(g, th, s.best);
      MeasureUpdate(g.n, s.threads, a.i, Act(g, th, s.best).0);
    }
  }

  lemma SplitDecreases(n: nat, threads: seq<Thread>, i: nat, j: nat)
    requires n > 0 && i < |threads| && j < |threads|
    requires threads[i].phase.Ready? && |threads[i].stack| >= 2 && threads[j] == Thread([], Ready)
    ensures
      var stack := threads[i].stack;
      Measure(n, threads[i := Thread(Evens(stack), Ready)][j := Thread(Odds(stack), Ready)]) < Measure(n, threads)
  {
    hide Measure, Evens, Odds, StackWeight;
    var stack := threads[i].stack;
    var kept, given := Thread(Evens(stack), Ready), Thread(Odds(stack), Ready);
    MeasureUpdate(n, threads, i, kept);
    MeasureUpdate(n, threads[i := kept], j, given);
    StackWeightSplit(n, stack);
    EmptyWeight(n);
  }

  lemma EmptyWeight(n: nat)
    requires n > 0
    ensures StackWeight(n, []) == 0
  {
  }

  // No run is longer than the measure of its start.
  lemma {:induction false} RunIsFinite(g: Graph, s: State, actions: seq<Action>, s': State, atomic: bool)
    requires g.Valid() && Runs(g, s, actions, s', atomic)
    ensures |actions| <= Measure(g.n, s.threads)
    decreases |actions|
  {
    hide Measure, Apply, ReadsBest, Shape;
    if actions != [] {
      StepDecreases(g, s, actions[0]);
      RunIsFinite(g, Apply(g, s, actions[0]), actions[1..], s', atomic);
    }
  }

  // Some step is possible while work is left, and one that waits for the update to settle.
  lemma NeverStuck(g: Graph, s: State) returns (a: Action)
    requires g.Valid() && Shape(g, s) && !Done(s)
    ensures Enabled(s, a) && (ReadsBest(g, s, a) ==> Calm(s))
  {
    if !Calm(s) {
      var i :| 0 <= i < |s.threads| && s.threads[i].phase.Closing?;
      a := Close(i);
    } else {
      var i :| 0 <= i < |s.threads| && s.threads[i] != Thread([], Ready);
      match s.threads[i].phase
      case Ready => a := Pop(i);
      case Expanding(_, _) => a := Consider(i);
      case Updating(_) => a := Lock(i);
    }
  }

  // ----- stack space -----

  // The height a stack can reach above the position of a prefix with m unvisited cities.
  function Growth(m: nat): (h: nat)
    ensures h >= 1
  {
    if m <= 1 then 1 else m - 1 + Growth(m - 1)
  }

  lemma {:induction false} GrowthClosed(m: nat)
    requires m >= 1
    ensures Growth(m) == 1 + m * (m - 1) / 2
    decreases m
  {
    if m > 1 {
      GrowthClosed(m - 1);
      assert m * (m - 1) == (m - 1) * (m - 2) + 2 * (m - 1);
    }
  }

  lemma {:induction false} GrowthMonotone(m: nat, k: nat)
    requires m <= k
    ensures Growth(m) <= Growth(k)
    decreases k - m
  {
    if m < k {
      GrowthMonotone(m, k - 1);
    }
  }

  // Room below `height` for everything the stacked prefixes, and the one in hand, can grow to.
  ghost predicate StackFits(g: Graph, stack: seq<Tour>, height: nat)
    requires g.n > 0
  {
    forall k :: 0 <= k < |stack| ==> k + Growth(Unvisited(stack[k].cities, g.n - 1)) <= height
  }

  ghost predicate Fits(g: Graph, th: Thread, height: nat)
    requires g.n > 0
  {
    && StackFits(g, th.stack, height)
    && (th.phase.Expanding? ==>
          var t, nbr := th.phase.t, th.phase.nbr;
          var m := Unvisited(t.cities, g.n - 1);
          m > 0 ==> |th.stack| + Unvisited(t.cities, nbr) - 1 + Growth(m - 1) <= height)
  }

  // A stack that fits is no higher than the bound.
  lemma FitsIsHeight(g: Graph, th: Thread, height: nat)
    requires g.n > 0 && Fits(g, th, height)
    ensures |th.stack| <= height
  {
    if th.stack != [] {
      var k := |th.stack| - 1;
      assert k + Growth(Unvisited(th.stack[k].cities, g.n - 1)) <= height;
    }
  }

  lemma ActFits(g: Graph, th: Thread, best: Tour, height: nat)
    requires g.Valid() && ThreadShape(g, th, best) && (th.phase.Ready? ==> th.stack != [])
    requires Fits(g, th, height)
    ensures Fits(g, Act(g, th, best).0, height)
  {
    hide PathCost;
    var th' := Act(g, th, best).0;
    match th.phase
    case Ready =>
      var top := |th.stack| - 1;
      assert top + Growth(Unvisited(th.stack[top].cities, g.n - 1)) <= height;
    case Expanding(t, nbr) =>
      if nbr > 0 && Feasible(g, t, nbr, best) {
        UnvisitedAdd(t.cities, nbr, g.n - 1);
        UnvisitedMonotone(t.cities, nbr, g.n - 1);
        assert th'.stack[|th.stack|] == Extended(g, t, nbr);
      }
    case _ =>
  }

  lemma SplitFits(g: Graph, stack: seq<Tour>, height: nat)
    requires g.n > 0 && StackFits(g, stack, height)
    ensures StackFits(g, Evens(stack), height) && StackFits(g, Odds(stack), height)
  {
    hide Evens, Odds, Growth, Unvisited;
    forall k | 0 <= k < |Evens(stack)|
      ensures k + Growth(Unvisited(Evens(stack)[k].cities, g.n - 1)) <= height
    {
      assert Evens(stack)[k] == stack[2 * k];
    }
    forall k | 0 <= k < |Odds(stack)|
      ensures k + Growth(Unvisited(Odds(stack)[k].cities, g.n - 1)) <= height
    {
      assert Odds(stack)[k] == stack[2 * k + 1];
    }
  }

  ghost predicate AllFit(g: Graph, s: State, height: nat)
    requires g.n > 0
  {
    forall i :: 0 <= i < |s.threads| ==> Fits(g, s.threads[i], height)
  }

  lemma StepFits(g: Graph, s: State, a: Action, height: nat)
    requires g.Valid() && Shape(g, s) && Enabled(s, a) && AllFit(g, s, height)
    ensures AllFit(g, Apply(g, s, a), height)
  {
    hide Act, PathCost, Growth, Unvisited, StackFits, Evens, Odds;
    if a.Split? {
      SplitFits(g, s.threads[a.i].stack, height);
    } else {
      ActFits(g, s.threads[a.i], s.best, height);
    }
  }

  // The height bound: at most n prefixes to start with, and n - 1 cities still to visit.
  function MaxHeight(n: nat): nat
    requires n > 0
  {
    n + (n - 1) * (n - 2) / 2
  }

  lemma HeightFitsAllocation(n: nat)
    requires n > 0
    ensures n >= 2 ==> n - 1 + Growth(n - 1) == MaxHeight(n)
    ensures MaxHeight(n) <= n * n
  {
    if n >= 2 {
      GrowthClosed(n - 1);
    }
    assert (n - 1) * (n - 2) == n * n - 3 * n + 2;
  }

  lemma StartFits(g: Graph, s: State)
    requires g.Valid() && g.n >= 2 && Start(g, s)
    requires forall i :: 0 <= i < |s.threads| ==> |s.threads[i].stack| <= g.n
    ensures AllFit(g, s, MaxHeight(g.n))
  {
    HeightFitsAllocation(g.n);
    forall i, k | 0 <= i < |s.threads| && 0 <= k < |s.threads[i].stack|
      ensures k + Growth(Unvisited(s.threads[i].stack[k].cities, g.n - 1)) <= MaxHeight(g.n)
    {
      GrowthMonotone(Unvisited(s.threads[i].stack[k].cities, g.n - 1), g.n - 1);
    }
  }

  lemma {:induction false} RunFits(g: Graph, s: State, actions: seq<Action>, s': State, atomic: bool, height: nat)
    requires g.Valid() && Runs(g, s, actions, s', atomic) && AllFit(g, s, height)
    ensures AllFit(g, s', height)
    decreases |actions|
  {
    hide AllFit, Apply, Shape, ReadsBest;
    if actions != [] {
      StepFits(g, s, actions[0], height);
      RunFits(g, Apply(g, s, actions[0]), actions[1..], s', atomic, height);
    }
  }

  // Started with at most n prefixes a thread, no stack of any run outgrows its n * n slots,
  // so the overflow exit of Push_copy is unreachable.
  lemma StacksNeverOverflow(g: Graph, s: State, actions: seq<Action>, s': State, atomic: bool, i: nat)
    requires g.Valid() && g.n >= 2 && Start(g, s) && Runs(g, s, actions, s', atomic)
    requires forall k :: 0 <= k < |s.threads| ==> |s.threads[k].stack| <= g.n
    requires i < |s'.threads|
    ensures |s'.threads[i].stack| <= MaxHeight(g.n) <= g.n * g.n
  {
    StartFits(g, s);
    RunFits(g, s, actions, s', atomic, MaxHeight(g.n));
    FitsIsHeight(g, s'.threads[i], MaxHeight(g.n));
    HeightFitsAllocation(g.n);
  }
}
