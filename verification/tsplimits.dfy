/**
 For how many threads a process is sure to find the optimum: one. `Update_best_tour` writes the
 best tour in two steps, and the pruning tests read its cost without the mutex.
 */
module TspLimits {
  import opened TspTours
  import opened TspSearch
  import opened TspBounds
  import opened TspPartition

  // ----- a half-written best tour -----

  // Costs on three cities: 0-1-2-0 costs 102, its first two edges 2; 0-2-1-0 costs 15.
  const SMALL := Graph(3, [0, 1, 5, 5, 0, 1, 100, 5, 0])

  lemma SmallIsValid()
    ensures SMALL.Valid()
  {
    forall a, b | 0 <= a < 3 && 0 <= b < 3
      ensures if a == b then SMALL.Cost(a, b) == 0 else SMALL.Cost(a, b) > 0
    {
      assert (a == 0 || a == 1 || a == 2) && (b == 0 || b == 1 || b == 2);
    }
  }

  const T01 := Tour([0, 1], 1)
  const T012 := Tour([0, 1, 2], 2)
  const T02 := Tour([0, 2], 5)
  const T0120 := Tour([0, 1, 2, 0], 102)

  function Two(best: Tour, a: Thread, b: Thread): State {
    State(best, [a, b])
  }

  lemma SmallPaths()
    requires SMALL.Valid()
    ensures PathCost(SMALL, [0, 1]) == 1 && PathCost(SMALL, [0, 2]) == 5
    ensures PathCost(SMALL, [0, 1, 2]) == 2 && PathCost(SMALL, [0, 2, 1]) == 10
  {
    hide PathCost;
    PathStep([0], 1);
    PathStep([0], 2);
    PathStep([0, 1], 2);
    PathStep([0, 2], 1);
    PathOne();
    assert [0] + [1] == [0, 1] && [0] + [2] == [0, 2];
    assert [0, 1] + [2] == [0, 1, 2] && [0, 2] + [1] == [0, 2, 1];
  }

  lemma PathOne()
    requires SMALL.Valid()
    ensures PathCost(SMALL, [0]) == 0
  {
  }

  lemma PathStep(p: seq<int>, c: int)
    requires SMALL.Valid() && |p| > 0 && 0 <= c < 3 && forall i :: 0 <= i < |p| ==> 0 <= p[i] < 3
    ensures PathCost(SMALL, p + [c]) == PathCost(SMALL, p) + SMALL.Cost(p[|p| - 1], c)
  {
    assert (p + [c])[..|p|] == p;
  }

  lemma SmallPrefixes()
    requires SMALL.Valid()
    ensures Prefix(SMALL, T01) && Prefix(SMALL, T012) && Prefix(SMALL, T02)
    ensures Extended(SMALL, T01, 2) == T012 && Extended(SMALL, T012, 0) == T0120
  {
    hide PathCost;
    SmallPaths();
  }

  lemma FirstStep(s: State, a: Action, s1: State, rest: seq<Action>, s': State)
    requires SMALL.Valid() && Shape(SMALL, s) && Enabled(s, a) && Apply(SMALL, s, a) == s1
    requires Runs(SMALL, s1, rest, s', false)
    ensures Runs(SMALL, s, [a] + rest, s', false)
  {
    assert ([a] + rest)[1..] == rest;
  }

  // Thread 0 finds 0-1-2 and has copied it, at cost 2, but not yet added the edge home; thread
  // 1 prunes 0-2-1 against that 2. No work is left, and the best tour costs 102 instead of 15.
  lemma HalfWrittenTourLosesOptimum() returns (actions: seq<Action>)
    ensures SMALL.Valid()
    ensures
      var s, s' := Two(NO_TOUR, Thread([T01], Ready), Thread([T02], Ready)),
                   Two(T0120, Thread([], Ready), Thread([], Ready));
      && Start(SMALL, s) && Runs(SMALL, s, actions, s', false) && Done(s')
      && (forall c :: Full(SMALL, c) ==> Covered(s, c))
      && Full(SMALL, [0, 2, 1]) && ClosedCost(SMALL, [0, 2, 1]) == 15 < s'.best.cost
  {
    hide Runs, PathCost;
    SmallIsValid();
    SmallPrefixes();
    actions := FirstHalf();
    SmallCovered(Two(NO_TOUR, Thread([T01], Ready), Thread([T02], Ready)));
  }

  lemma FirstHalf() returns (actions: seq<Action>)
    requires SMALL.Valid()
    ensures Runs(SMALL, Two(NO_TOUR, Thread([T01], Ready), Thread([T02], Ready)), actions,
                 Two(T0120, Thread([], Ready), Thread([], Ready)), false)
  {
    hide Runs, PathCost;
    SmallPrefixes();
    var b, idle := Thread([T02], Ready), Thread([], Ready);
    var s' := Two(T0120, idle, idle);
    var s0 := Two(NO_TOUR, Thread([T01], Ready), b);
    var s1 := Two(NO_TOUR, Thread([], Expanding(T01, 2)), b);
    var s2 := Two(NO_TOUR, Thread([T012], Expanding(T01, 1)), b);
    var s3 := Two(NO_TOUR, Thread([T012], Expanding(T01, 0)), b);
    var s4 := Two(NO_TOUR, Thread([T012], Ready), b);
    actions := MiddlePart(s4);
    FirstStep(s3, Consider(0), s4, actions, s');
    actions := [Consider(0)] + actions;
    FirstStep(s2, Consider(0), s3, actions, s');
    actions := [Consider(0)] + actions;
    assert [] + [T012] == [T012];
    FirstStep(s1, Consider(0), s2, actions, s');
    actions := [Consider(0)] + actions;
    FirstStep(s0, Pop(0), s1, actions, s');
    actions := [Pop(0)] + actions;
  }

  lemma MiddlePart(s: State) returns (actions: seq<Action>)
    requires SMALL.Valid() && s == Two(NO_TOUR, Thread([T012], Ready), Thread([T02], Ready))
    ensures Runs(SMALL, s, actions, Two(T0120, Thread([], Ready), Thread([], Ready)), false)
  {
    hide Runs, PathCost;
    SmallPrefixes();
    var s' := Two(T0120, Thread([], Ready), Thread([], Ready));
    var s1 := Two(NO_TOUR, Thread([], Updating(T012)), Thread([T02], Ready));
    var s2 := Two(T012, Thread([], Closing(T012)), Thread([T02], Ready));
    actions := SecondHalf(s2);
    FirstStep(s1, Lock(0), s2, actions, s');
    actions := [Lock(0)] + actions;
    FirstStep(s, Pop(0), s1, actions, s');
    actions := [Pop(0)] + actions;
  }

  lemma SecondHalf(s: State) returns (actions: seq<Action>)
    requires SMALL.Valid() && s == Two(T012, Thread([], Closing(T012)), Thread([T02], Ready))
    ensures Runs(SMALL, s, actions, Two(T0120, Thread([], Ready), Thread([], Ready)), false)
  {
    hide PathCost;
    SmallPrefixes();
    var a0, idle := Thread([], Closing(T012)), Thread([], Ready);
    var s1 := Two(T012, a0, Thread([], Expanding(T02, 2)));
    var s2 := Two(T012, a0, Thread([], Expanding(T02, 1)));
    var s3 := Two(T012, a0, Thread([], Expanding(T02, 0)));
    var s4 := Two(T012, a0, idle);
    var s5 := Two(T0120, idle, idle);
    assert Runs(SMALL, s5, [], s5, false);
    FirstStep(s4, Close(0), s5, [], s5);
    FirstStep(s3, Consider(1), s4, [Close(0)] + [], s5);
    FirstStep(s2, Consider(1), s3, [Consider(1)] + ([Close(0)] + []), s5);
    FirstStep(s1, Consider(1), s2, [Consider(1)] + ([Consider(1)] + ([Close(0)] + [])), s5);
    actions := [Consider(1)] + ([Consider(1)] + ([Consider(1)] + ([Close(0)] + [])));
    FirstStep(s, Pop(1), s1, actions, s5);
    actions := [Pop(1)] + actions;
  }

  lemma SmallCovered(s: State)
    requires SMALL.Valid() && s == Two(NO_TOUR, Thread([T01], Ready), Thread([T02], Ready))
    ensures forall c :: Full(SMALL, c) ==> Covered(s, c)
    ensures Full(SMALL, [0, 2, 1]) && ClosedCost(SMALL, [0, 2, 1]) == 15
  {
    hide PathCost;
    forall c | Full(SMALL, c)
      ensures Covered(s, c)
    {
      assert c[1] != c[0];
      if c[1] == 1 {
        OnStackAt(s.threads[0].stack, 0, c);
        CoveredAt(s, 0, c);
      } else {
        OnStackAt(s.threads[1].stack, 0, c);
        CoveredAt(s, 1, c);
      }
    }
    SmallPaths();
  }

  lemma SmallChildren()
    requires SMALL.Valid()
    ensures Children(SMALL, ROOT, 2) == [T01, T02]
  {
    assert [0] + [1] == [0, 1] && [0] + [2] == [0, 2];
    assert Extended(SMALL, ROOT, 1) == T01 && Extended(SMALL, ROOT, 2) == T02;
    assert Children(SMALL, ROOT, 0) == [];
    assert Children(SMALL, ROOT, 1) == [] + [T01];
  }

  lemma SmallStacks()
    ensures InitialStack([T01, T02], 0, 2) == [T01] && InitialStack([T01, T02], 1, 2) == [T02]
  {
    assert BlockStart(0, 2, 2) == 0 && BlockStart(1, 2, 2) == 1 && BlockStart(2, 2, 2) == 2;
    assert [T01, T02][0..1] == [T01] && [T01, T02][1..2] == [T02];
  }

  // The start is the one the program gives its two threads on these cities.
  lemma SmallStart()
    ensures SMALL.Valid() && 2 <= Fact(SMALL.n - 1)
    ensures InitialQueue(SMALL, 2) == [T01, T02]
    ensures InitialState(InitialQueue(SMALL, 2), 0, 2, 1) == Two(NO_TOUR, Thread([T01], Ready), Thread([T02], Ready))
  {
    hide QueueInv;
    SmallIsValid();
    SmallChildren();
    RootInv(SMALL);
    ExpandKeeps(SMALL, [ROOT]);
    assert Fact(2) == 2;
    assert [ROOT][1..] + [T01, T02] == [T01, T02];
    assert InitialQueue(SMALL, 2) == BreadthFirst(SMALL, [T01, T02], 2);
    SmallStacks();
    assert InitialState([T01, T02], 0, 2, 1).threads == [Thread([T01], Ready), Thread([T02], Ready)];
  }

  // ----- exactly one thread -----

  // If the run ends without work left, it has found a cheapest cycle among those its start covers.
  ghost predicate EndsOptimal(g: Graph, s: State, actions: seq<Action>, s': State) {
    g.Valid() && Start(g, s) && Runs(g, s, actions, s', false) && Done(s') ==>
      Optimal(g, s'.best, iset c | Full(g, c) && Covered(s, c))
  }

  ghost predicate AlwaysOptimal(k: nat) {
    forall g, s: State, actions, s' :: |s.threads| == k ==> EndsOptimal(g, s, actions, s')
  }

  // The state with threads added that have nothing to do.
  function Padded(s: State, extra: nat): State {
    s.(threads := s.threads + seq(extra, i => Thread([], Ready)))
  }

  lemma {:induction false} PaddedRuns(g: Graph, s: State, actions: seq<Action>, s': State, extra: nat)
    requires g.Valid() && Runs(g, s, actions, s', false)
    ensures Runs(g, Padded(s, extra), actions, Padded(s', extra), false)
    decreases |actions|
  {
    hide PathCost;
    if actions != [] {
      PaddedRuns(g, Apply(g, s, actions[0]), actions[1..], s', extra);
      assert Apply(g, Padded(s, extra), actions[0]) == Padded(Apply(g, s, actions[0]), extra);
    }
  }

  lemma OneThreadIsOptimal()
    ensures AlwaysOptimal(1)
  {
    hide PathCost, Runs, Start, Optimal, Covered, Done;
    forall g: Graph, s: State, actions, s' | |s.threads| == 1
      ensures EndsOptimal(g, s, actions, s')
    {
      if g.Valid() && Start(g, s) && Runs(g, s, actions, s', false) && Done(s') {
        OneThreadIsAtomic(g, s, actions, s');
        SearchIsOptimal(g, s, actions, s', iset c | Full(g, c) && Covered(s, c));
      }
    }
  }

  // However many threads are added to the two, the run that loses the optimum is still there.
  lemma MoreThreadsLoseOptimum(k: nat)
    requires k >= 2
    ensures !AlwaysOptimal(k)
  {
    hide PathCost, Runs;
    var actions := HalfWrittenTourLosesOptimum();
    var s, s' := Two(NO_TOUR, Thread([T01], Ready), Thread([T02], Ready)),
                 Two(T0120, Thread([], Ready), Thread([], Ready));
    PaddedRuns(SMALL, s, actions, s', k - 2);
    var c := [0, 2, 1];
    var i :| 0 <= i < 2 && Holds(s.threads[i], c);
    CoveredAt(Padded(s, k - 2), i, c);
    assert !EndsOptimal(SMALL, Padded(s, k - 2), actions, Padded(s', k - 2));
  }

  // Every run from every start of k threads ends with an optimal tour iff k is one.
  lemma AlwaysOptimalIffOneThread(k: nat)
    requires k >= 1
    ensures AlwaysOptimal(k) <==> k == 1
  {
    hide AlwaysOptimal;
    if k == 1 {
      OneThreadIsOptimal();
    } else {
      MoreThreadsLoseOptimum(k);
    }
  }
}
