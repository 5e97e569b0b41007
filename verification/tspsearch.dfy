/**
 The search of one process as a state machine: threads pop and expand their own stacks, prune
 against the shared best tour, replace it under a mutex, and split stacks for idle threads.
 Every test, push and write of the best tour is a step of its own, so runs are all
 interleavings.
 */
module TspSearch {
  import opened TspTours

  datatype Phase =
    | Ready
    // Expanding a popped tour; cities above `nbr` have been considered.
    | Expanding(t: Tour, nbr: nat)
    // The unlocked Best_tour test succeeded; waiting for the mutex.
    | Updating(t: Tour)
    // Copy_tour is done, Add_city of the home town is not: the best cost misses its last edge.
    | Closing(t: Tour)

  datatype Thread = Thread(stack: seq<Tour>, phase: Phase)

  datatype State = State(best: Tour, threads: seq<Thread>)

  datatype Action = Pop(i: nat) | Consider(i: nat) | Lock(i: nat) | Close(i: nat) | Split(i: nat, j: nat)

  // ----- the steps -----

  predicate Calm(s: State) {
    forall i :: 0 <= i < |s.threads| ==> !s.threads[i].phase.Closing?
  }

  predicate Better(g: Graph, t: Tour, best: Tour)
    requires |g.digraph| == g.n * g.n && g.n > 0
    requires |t.cities| > 0 && 0 <= t.cities[|t.cities| - 1] < g.n
  {
    t.cost + g.Cost(t.cities[|t.cities| - 1], 0) < best.cost
  }

  predicate Feasible(g: Graph, t: Tour, city: int, best: Tour)
    requires |g.digraph| == g.n * g.n && 0 <= city < g.n
    requires |t.cities| > 0 && 0 <= t.cities[|t.cities| - 1] < g.n
  {
    city !in t.cities && t.cost + g.Cost(t.cities[|t.cities| - 1], city) < best.cost
  }

  function Evens(s: seq<Tour>): (r: seq<Tour>)
    ensures |r| == (|s| + 1) / 2
    ensures forall k :: 0 <= k < |r| ==> r[k] == s[2 * k]
  {
    if |s| <= 1 then s else [s[0]] + Evens(s[2..])
  }

  function Odds(s: seq<Tour>): (r: seq<Tour>)
    ensures |r| == |s| / 2
    ensures forall k :: 0 <= k < |r| ==> r[k] == s[2 * k + 1]
  {
    if |s| == 0 then [] else Evens(s[1..])
  }

  ghost predicate Enabled(s: State, a: Action) {
    match a
    case Pop(i) => i < |s.threads| && s.threads[i].phase.Ready? && s.threads[i].stack != []
    case Consider(i) => i < |s.threads| && s.threads[i].phase.Expanding?
    case Lock(i) => i < |s.threads| && s.threads[i].phase.Updating? && Calm(s)
    case Close(i) => i < |s.threads| && s.threads[i].phase.Closing?
    case Split(i, j) =>
      // a split size of at least 2, a busy thread between tours, and a waiting thread
      && i < |s.threads| && j < |s.threads|
      && s.threads[i].phase.Ready? && |s.threads[i].stack| >= 2
      && s.threads[j] == Thread([], Ready)
  }

  // Steps that look at the cost of the best tour outside the mutex.
  ghost predicate ReadsBest(g: Graph, s: State, a: Action)
    requires Enabled(s, a)
  {
    match a
    case Pop(i) =>
      var stack := s.threads[i].stack;
      |stack[|stack| - 1].cities| == g.n
    case Consider(i) => s.threads[i].phase.nbr > 0
    case _ => false
  }

  ghost predicate Sane(g: Graph, t: Tour) {
    |t.cities| > 0 && forall i :: 0 <= i < |t.cities| ==> 0 <= t.cities[i] < g.n
  }

  // What a thread's own step makes of it and of the best tour.
  function Act(g: Graph, th: Thread, best: Tour): (r: (Thread, Tour))
    requires g.Valid()
    requires th.phase.Ready? ==> th.stack != [] && Sane(g, th.stack[|th.stack| - 1])
    requires !th.phase.Ready? ==> Sane(g, th.phase.t)
    requires th.phase.Closing? ==> Sane(g, best)
    requires th.phase.Expanding? ==> th.phase.nbr < g.n
  {
    match th.phase
    case Ready =>
      var t, rest := th.stack[|th.stack| - 1], th.stack[..|th.stack| - 1];
      if |t.cities| == g.n then (Thread(rest, if Better(g, t, best) then Updating(t) else Ready), best)
      else (Thread(rest, Expanding(t, g.n - 1)), best)
    case Expanding(t, nbr) =>
      if nbr == 0 then (Thread(th.stack, Ready), best)
      else if Feasible(g, t, nbr, best) then
        (Thread(th.stack + [Extended(g, t, nbr)], Expanding(t, nbr - 1)), best)
      else (Thread(th.stack, Expanding(t, nbr - 1)), best)
    case Updating(t) =>
      if Better(g, t, best) then (Thread(th.stack, Closing(t)), t) else (Thread(th.stack, Ready), best)
    case Closing(t) => (Thread(th.stack, Ready), Extended(g, best, 0))
  }

  function Apply(g: Graph, s: State, a: Action): State
    requires g.Valid() && Shape(g, s) && Enabled(s, a)
  {
    if a.Split? then
      var stack := s.threads[a.i].stack;
      s.(threads := s.threads[a.i := Thread(Evens(stack), Ready)][a.j := Thread(Odds(stack), Ready)])
    else
      var (th, best) := Act(g, s.threads[a.i], s.best);
      State(best, s.threads[a.i := th])
  }

  // ----- what every step keeps -----

  ghost predicate ThreadShape(g: Graph, th: Thread, best: Tour)
    requires g.Valid()
  {
    && (forall k :: 0 <= k < |th.stack| ==> Prefix(g, th.stack[k]))
    && match th.phase
       case Ready => true
       case Expanding(t, nbr) => Prefix(g, t) && |t.cities| < g.n && nbr < g.n
       case Updating(t) => Prefix(g, t) && |t.cities| == g.n
       case Closing(t) => Prefix(g, t) && |t.cities| == g.n && best == t
  }

  ghost predicate Shape(g: Graph, s: State)
    requires g.Valid()
  {
    && (forall i :: 0 <= i < |s.threads| ==> ThreadShape(g, s.threads[i], s.best))
    && (forall i, j :: 0 <= i < j < |s.threads| ==>
          !(s.threads[i].phase.Closing? && s.threads[j].phase.Closing?))
  }

  ghost predicate IsTour(g: Graph, t: Tour, c: seq<int>)
    requires g.Valid()
  {
    Full(g, c) && t == Tour(c + [0], ClosedCost(g, c))
  }

  const NO_TOUR := Tour([0], INFINITY)

  // The best tour is none yet, a Hamiltonian cycle with its cost, or about to become one.
  ghost predicate BestOk(g: Graph, s: State)
    requires g.Valid()
  {
    Calm(s) ==> s.best == NO_TOUR || exists c :: IsTour(g, s.best, c)
  }

  // The cost of the best tour, with the edge home counted in while it is being added.
  ghost function BestCost(g: Graph, s: State): int
    requires g.Valid() && Shape(g, s)
  {
    if Calm(s) then s.best.cost else ClosedCost(g, s.best.cities)
  }

  ghost predicate OnStack(stack: seq<Tour>, c: seq<int>) {
    exists k :: 0 <= k < |stack| && stack[k].cities <= c
  }

  ghost predicate InHand(phase: Phase, c: seq<int>) {
    match phase
    case Expanding(t, nbr) => t.cities <= c && |t.cities| < |c| && c[|t.cities|] <= nbr
    case Updating(t) => t.cities == c
    case _ => false
  }

  // The thread will still reach the full path `c` unless it is pruned.
  ghost predicate Holds(th: Thread, c: seq<int>) {
    OnStack(th.stack, c) || InHand(th.phase, c)
  }

  ghost predicate Covered(s: State, c: seq<int>) {
    exists i :: 0 <= i < |s.threads| && Holds(s.threads[i], c)
  }

  // No path of the process's share that is cheaper than its best tour has been lost.
  ghost predicate NoneLost(g: Graph, s: State, share: iset<seq<int>>)
    requires g.Valid() && Shape(g, s)
  {
    forall c :: c in share && Full(g, c) ==> Covered(s, c) || ClosedCost(g, c) >= BestCost(g, s)
  }

  ghost predicate Inv(g: Graph, s: State, share: iset<seq<int>>)
    requires g.Valid()
  {
    Shape(g, s) && BestOk(g, s) && NoneLost(g, s, share)
  }

  // ----- one thread -----

  lemma ActShape(g: Graph, th: Thread, best: Tour)
    requires g.Valid() && ThreadShape(g, th, best) && (th.phase.Ready? ==> th.stack != [])
    ensures ThreadShape(g, Act(g, th, best).0, Act(g, th, best).1)
    ensures Act(g, th, best).0.phase.Closing? <==> th.phase.Updating? && Better(g, th.phase.t, best)
    ensures !th.phase.Updating? && !th.phase.Closing? ==> Act(g, th, best).1 == best
  {
    if th.phase.Expanding? && th.phase.nbr > 0 && Feasible(g, th.phase.t, th.phase.nbr, best) {
      ExtendedPrefix(g, th.phase.t, th.phase.nbr);
    }
  }

  // What the two tests decide, in terms of the costs of paths: a neighbour is gone to iff it is
  // unvisited and the path to it is cheaper than the best tour, and a full path replaces the best
  // tour iff its cycle is cheaper. Equal costs change nothing.
  lemma TestsCompareCosts(g: Graph, t: Tour, best: Tour, city: int)
    requires g.Valid() && Prefix(g, t) && 0 <= city < g.n
    ensures Feasible(g, t, city, best) <==> city !in t.cities && PathCost(g, t.cities + [city]) < best.cost
    ensures Full(g, t.cities) ==> (Better(g, t, best) <==> ClosedCost(g, t.cities) < best.cost)
  {
    var p := t.cities + [city];
    assert p[..|p| - 1] == t.cities;
  }

  lemma OnStackAt(stack: seq<Tour>, k: nat, c: seq<int>)
    requires k < |stack| && stack[k].cities <= c
    ensures OnStack(stack, c)
  {
  }

  lemma OnPushed(stack: seq<Tour>, t: Tour, c: seq<int>)
    ensures OnStack(stack + [t], c) <==> OnStack(stack, c) || t.cities <= c
  {
    var both := stack + [t];
    if t.cities <= c {
      OnStackAt(both, |stack|, c);
    }
    if k :| 0 <= k < |stack| && stack[k].cities <= c {
      OnStackAt(both, k, c);
    }
  }

  // Popping keeps a path unless the popped tour is a full one that is not better.
  lemma PopKeeps(g: Graph, th: Thread, best: Tour, c: seq<int>)
    requires g.Valid() && ThreadShape(g, th, best) && th.phase.Ready? && th.stack != []
    requires Full(g, c) && OnStack(th.stack, c)
    ensures Holds(Act(g, th, best).0, c)
            || (|th.stack[|th.stack| - 1].cities| == g.n && ClosedCost(g, c) >= best.cost)
  {
    hide PathCost;
    var t, rest := th.stack[|th.stack| - 1], th.stack[..|th.stack| - 1];
    assert th.stack == rest + [t];
    OnPushed(rest, t, c);
    if !OnStack(rest, c) {
      if |t.cities| == g.n {
        assert t.cities == c;
      } else {
        assert c[|t.cities|] <= g.n - 1;
      }
    }
  }

  // Considering a neighbour keeps a path unless it runs through a neighbour that is not feasible.
  lemma ConsiderKeeps(g: Graph, th: Thread, best: Tour, c: seq<int>)
    requires g.Valid() && ThreadShape(g, th, best) && th.phase.Expanding?
    requires Full(g, c) && Holds(th, c)
    ensures Holds(Act(g, th, best).0, c) || (th.phase.nbr > 0 && ClosedCost(g, c) >= best.cost)
  {
    hide PathCost, Extended;
    var t, nbr := th.phase.t, th.phase.nbr;
    if InHand(th.phase, c) {
      assert c[|t.cities|] != c[0];
      if nbr > 0 && c[|t.cities|] == nbr {
        ChildPruned(g, t, nbr, best, c);
      }
    }
    if nbr > 0 && Feasible(g, t, nbr, best) {
      OnPushed(th.stack, Extended(g, t, nbr), c);
    }
  }

  // A child that is not feasible leads to nothing better.
  lemma ChildPruned(g: Graph, t: Tour, nbr: int, best: Tour, c: seq<int>)
    requires g.Valid() && Prefix(g, t) && |t.cities| < g.n && Full(g, c) && t.cities <= c
    requires c[|t.cities|] == nbr
    ensures nbr !in t.cities && Extended(g, t, nbr).cities <= c
    ensures Feasible(g, t, nbr, best) || ClosedCost(g, c) >= best.cost
  {
    assert forall k :: 0 <= k < |t.cities| ==> t.cities[k] == c[k] && c[k] != nbr;
    ExtendedPrefix(g, t, nbr);
    PrefixBound(g, Extended(g, t, nbr), c);
  }

  // ----- all threads -----

  lemma ApplyShape(g: Graph, s: State, a: Action)
    requires g.Valid() && Shape(g, s) && Enabled(s, a) && !a.Split?
    ensures Shape(g, Apply(g, s, a)) && |Apply(g, s, a).threads| == |s.threads|
    ensures forall j :: 0 <= j < |s.threads| && j != a.i ==> Apply(g, s, a).threads[j] == s.threads[j]
    ensures Apply(g, s, a).threads[a.i] == Act(g, s.threads[a.i], s.best).0
  {
    hide Act, PathCost;
    ActShape(g, s.threads[a.i], s.best);
  }

  // How the best tour moves: not at all, from a worse tour to a full path, and on to its cycle.
  lemma BestMoves(g: Graph, s: State, a: Action)
    requires g.Valid() && Shape(g, s) && BestOk(g, s) && Enabled(s, a) && !a.Split?
    ensures Shape(g, Apply(g, s, a)) && BestOk(g, Apply(g, s, a))
    ensures BestCost(g, Apply(g, s, a)) <= BestCost(g, s)
    ensures a.Lock? && BestCost(g, Apply(g, s, a)) == BestCost(g, s) ==> Calm(Apply(g, s, a))
    ensures a.Lock? && !Calm(Apply(g, s, a)) ==>
              BestCost(g, Apply(g, s, a)) == ClosedCost(g, s.threads[a.i].phase.t.cities)
    ensures a.Lock? && Calm(Apply(g, s, a)) ==>
              ClosedCost(g, s.threads[a.i].phase.t.cities) >= BestCost(g, Apply(g, s, a))
  {
    hide PathCost;
    var s' := Apply(g, s, a);
    ApplyShape(g, s, a);
    ActShape(g, s.threads[a.i], s.best);
    var th, th' := s.threads[a.i], s'.threads[a.i];
    if a.Close? {
      assert IsTour(g, s'.best, s.best.cities);
      assert Calm(s');
    } else if a.Lock? {
      assert Calm(s') <==> !th'.phase.Closing?;
    } else {
      assert Calm(s') <==> Calm(s) by {
        if i :| 0 <= i < |s.threads| && s.threads[i].phase.Closing? {
          assert s'.threads[i].phase.Closing?;
        }
      }
    }
  }

  lemma CoveredAt(s: State, i: nat, c: seq<int>)
    requires i < |s.threads| && Holds(s.threads[i], c)
    ensures Covered(s, c)
  {
  }

  // The acting thread still holds the path, or the path is no better than the settled best tour.
  lemma ActKeeps(g: Graph, s: State, a: Action, c: seq<int>)
    requires g.Valid() && Shape(g, s) && BestOk(g, s) && Enabled(s, a) && !a.Split?
    requires ReadsBest(g, s, a) ==> Calm(s)
    requires Full(g, c) && Holds(s.threads[a.i], c)
    ensures Shape(g, Apply(g, s, a))
    ensures Holds(Act(g, s.threads[a.i], s.best).0, c) || ClosedCost(g, c) >= BestCost(g, Apply(g, s, a))
  {
    hide PathCost, Act, Apply, Holds, Full, BestOk, ThreadShape;
    BestMoves(g, s, a);
    var th := s.threads[a.i];
    assert ThreadShape(g, th, s.best);
    match a
    case Pop(_) => ReadyOnly(th, c); PopKeeps(g, th, s.best, c);
    case Consider(_) => ConsiderKeeps(g, th, s.best, c);
    case Lock(_) => SettleKeeps(g, th, s.best, c);
    case Close(_) => SettleKeeps(g, th, s.best, c);
  }

  lemma ReadyOnly(th: Thread, c: seq<int>)
    requires th.phase.Ready? && Holds(th, c)
    ensures OnStack(th.stack, c)
  {
  }

  // A step loses no path, provided it reads the best cost only when that is settled.
  lemma StepKeepsPath(g: Graph, s: State, a: Action, c: seq<int>)
    requires g.Valid() && Shape(g, s) && BestOk(g, s) && Enabled(s, a) && !a.Split?
    requires ReadsBest(g, s, a) ==> Calm(s)
    requires Full(g, c) && Covered(s, c)
    ensures Shape(g, Apply(g, s, a))
    ensures Covered(Apply(g, s, a), c) || ClosedCost(g, c) >= BestCost(g, Apply(g, s, a))
  {
    hide PathCost, Act, Apply, Holds, Full, BestOk, ThreadShape, ReadsBest, BestCost, ClosedCost;
    var s' := Apply(g, s, a);
    ApplyShape(g, s, a);
    var i :| 0 <= i < |s.threads| && Holds(s.threads[i], c);
    if i == a.i {
      ActKeeps(g, s, a, c);
    }
    if Holds(s'.threads[i], c) {
      CoveredAt(s', i, c);
    }
  }

  // Updating gives up at most the path it updates with.
  lemma SettleKeeps(g: Graph, th: Thread, best: Tour, c: seq<int>)
    requires g.Valid() && ThreadShape(g, th, best) && (th.phase.Updating? || th.phase.Closing?)
    requires Holds(th, c)
    ensures Holds(Act(g, th, best).0, c) || (th.phase.Updating? && th.phase.t.cities == c)
  {
    hide PathCost;
  }

  lemma StepKeeps(g: Graph, s: State, a: Action, share: iset<seq<int>>)
    requires g.Valid() && Inv(g, s, share) && Enabled(s, a) && !a.Split?
    requires ReadsBest(g, s, a) ==> Calm(s)
    ensures Inv(g, Apply(g, s, a), share)
  {
    hide PathCost, Act, Apply, BestCost, Covered, ClosedCost;
    BestMoves(g, s, a);
    var s' := Apply(g, s, a);
    forall c | c in share && Full(g, c)
      ensures Covered(s', c) || ClosedCost(g, c) >= BestCost(g, s')
    {
      if Covered(s, c) {
        StepKeepsPath(g, s, a, c);
      }
    }
  }

  lemma OnHalves(stack: seq<Tour>, c: seq<int>)
    requires OnStack(stack, c)
    ensures OnStack(Evens(stack), c) || OnStack(Odds(stack), c)
  {
    hide Evens, Odds;
    var k :| 0 <= k < |stack| && stack[k].cities <= c;
    if k % 2 == 0 {
      OnStackAt(Evens(stack), k / 2, c);
    } else {
      OnStackAt(Odds(stack), k / 2, c);
    }
  }

  // Splitting only moves tours.
  lemma SplitShape(g: Graph, s: State, a: Action)
    requires g.Valid() && Shape(g, s) && Enabled(s, a) && a.Split?
    ensures Shape(g, Apply(g, s, a)) && |Apply(g, s, a).threads| == |s.threads|
    ensures Apply(g, s, a).best == s.best && (Calm(Apply(g, s, a)) <==> Calm(s))
    ensures forall k :: 0 <= k < |s.threads| && k != a.i && k != a.j ==> Apply(g, s, a).threads[k] == s.threads[k]
    ensures Apply(g, s, a).threads[a.i] == Thread(Evens(s.threads[a.i].stack), Ready)
    ensures Apply(g, s, a).threads[a.j] == Thread(Odds(s.threads[a.i].stack), Ready)
  {
    hide Prefix;
    var s' := Apply(g, s, a);
    assert forall k :: 0 <= k < |s.threads| ==> (s'.threads[k].phase.Closing? <==> s.threads[k].phase.Closing?);
  }

  lemma SplitKeeps(g: Graph, s: State, a: Action, share: iset<seq<int>>)
    requires g.Valid() && Inv(g, s, share) && Enabled(s, a) && a.Split?
    ensures Inv(g, Apply(g, s, a), share)
  {
    hide PathCost, Apply, Evens, Odds;
    var s' := Apply(g, s, a);
    SplitShape(g, s, a);
    forall c | Covered(s, c)
      ensures Covered(s', c)
    {
      var i :| 0 <= i < |s.threads| && Holds(s.threads[i], c);
      if i == a.i {
        OnHalves(s.threads[i].stack, c);
        if Holds(s'.threads[a.i], c) {
          CoveredAt(s', a.i, c);
        } else {
          CoveredAt(s', a.j, c);
        }
      } else {
        assert i != a.j;
        CoveredAt(s', i, c);
      }
    }
  }

  // ----- runs -----

  // A run performs its actions in order. In an atomic run nobody reads the best cost while
  // another thread is between Copy_tour and Add_city; otherwise anything enabled may happen.
  ghost predicate Runs(g: Graph, s: State, actions: seq<Action>, s': State, atomic: bool)
    requires g.Valid()
    decreases |actions|
  {
    if actions == [] then s == s'
    else
      && Shape(g, s) && Enabled(s, actions[0])
      && (atomic && ReadsBest(g, s, actions[0]) ==> Calm(s))
      && Runs(g, Apply(g, s, actions[0]), actions[1..], s', atomic)
  }

  // No work left anywhere.
  ghost predicate Done(s: State) {
    forall i :: 0 <= i < |s.threads| ==> s.threads[i] == Thread([], Ready)
  }

  // Threads start between tours on stacks of prefixes, and there is no best tour.
  ghost predicate Start(g: Graph, s: State)
    requires g.Valid()
  {
    && s.best == NO_TOUR
    && forall i :: 0 <= i < |s.threads| ==> s.threads[i].phase.Ready? && ThreadShape(g, s.threads[i], s.best)
  }

  lemma {:induction false} RunKeepsInv(g: Graph, s: State, actions: seq<Action>, s': State, share: iset<seq<int>>)
    requires g.Valid() && Inv(g, s, share) && Runs(g, s, actions, s', true)
    ensures Inv(g, s', share)
    decreases |actions|
  {
    hide Inv, Apply, ReadsBest;
    if actions != [] {
      if actions[0].Split? {
        SplitKeeps(g, s, actions[0], share);
      } else {
        StepKeeps(g, s, actions[0], share);
      }
      RunKeepsInv(g, Apply(g, s, actions[0]), actions[1..], s', share);
    }
  }

  // `best` is a Hamiltonian cycle no dearer than any in the share, or no cycle of the share
  // costs less than INFINITY.
  ghost predicate Optimal(g: Graph, best: Tour, share: iset<seq<int>>)
    requires g.Valid()
  {
    && (best == NO_TOUR || exists c :: IsTour(g, best, c))
    && forall c :: c in share && Full(g, c) ==> ClosedCost(g, c) >= best.cost
  }

  // When the stacks start out covering a share of the paths, every atomic run that ends
  // without work left ends with an optimal tour, whatever the interleaving and the splits.
  lemma SearchIsOptimal(g: Graph, s: State, actions: seq<Action>, s': State, share: iset<seq<int>>)
    requires g.Valid() && Start(g, s) && Runs(g, s, actions, s', true) && Done(s')
    requires forall c :: c in share && Full(g, c) ==> Covered(s, c)
    ensures Optimal(g, s'.best, share)
  {
    RunKeepsInv(g, s, actions, s', share);
    assert Calm(s');
    assert forall c :: !Covered(s', c);
  }

  // A process with one thread has no other runs.
  lemma {:induction false} OneThreadIsAtomic(g: Graph, s: State, actions: seq<Action>, s': State)
    requires g.Valid() && |s.threads| == 1 && Runs(g, s, actions, s', false)
    ensures Runs(g, s, actions, s', true)
    decreases |actions|
  {
    if actions != [] {
      var s1 := Apply(g, s, actions[0]);
      OneThreadIsAtomic(g, s1, actions[1..], s');
    }
  }
}
