/** The search as one thread runs it: a stack of tour copies in an array, tours grown and shrunk in place. */
module TspProgram {
  import opened Base
  import opened TspTours
  import opened TspSearch
  import opened TspBounds

  class TourStack {
    const list: array<Tour>
    var list_sz: nat

    ghost predicate Valid()
      reads this
    {
      list_sz <= list.Length
    }

    ghost function View(): (v: seq<Tour>)
      requires Valid()
      reads this, list
      ensures |v| == list_sz
    {
      list[..list_sz]
    }

    constructor (n: nat)
      ensures Valid() && View() == [] && fresh(list) && list.Length == n * n
    {
      list := new Tour[n * n](_ => NO_TOUR);
      list_sz := 0;
    }

    // A full stack drops the tour.
    method Push(t: Tour)
      requires Valid()
      modifies this`list_sz, list
      ensures Valid()
      ensures View() == if old(list_sz) == list.Length then old(View()) else old(View()) + [t]
    {
      if list_sz != list.Length {
        list[list_sz] := t;
        list_sz := list_sz + 1;
      }
    }

    // False where the program exits with a stack overflow.
    method PushCopy(t: Tour) returns (ok: bool)
      requires Valid()
      modifies this`list_sz, list
      ensures Valid() && (ok <==> old(list_sz) < list.Length)
      ensures View() == if ok then old(View()) + [t] else old(View())
    {
      ok := list_sz != list.Length;
      if ok {
        list[list_sz] := t;
        list_sz := list_sz + 1;
      }
    }

    // None where the program exits on an empty stack.
    method Pop() returns (t: Option<Tour>)
      requires Valid()
      modifies this`list_sz
      ensures Valid()
      ensures t.None? <==> old(list_sz) == 0
      ensures t.Some? ==> old(View()) == View() + [t.value]
    {
      if list_sz == 0 {
        return None;
      }
      list_sz := list_sz - 1;
      t := Some(list[list_sz]);
    }

    // The loop of Split_stack: odd positions to the new array, even ones closing ranks.
    method Deal(to: array<Tour>) returns (newDest: nat, oldDest: nat)
      requires Valid() && list_sz >= 1 && to.Length == list.Length && to != list
      modifies list, to
      ensures newDest == list_sz / 2 && oldDest == (list_sz + 1) / 2
      ensures list[..oldDest] == Evens(old(View()))
      ensures to[..newDest] == Odds(old(View()))
    {
      hide Evens, Odds;
      ghost var was, evens, odds := View(), Evens(View()), Odds(View());
      newDest, oldDest := 0, 1;
      var newSrc := 1;
      while newSrc < list_sz
        invariant newSrc == 2 * newDest + 1
        invariant oldDest == if newSrc <= list_sz then newDest + 1 else newDest
        invariant newDest <= |odds| && oldDest <= |evens|
        invariant list[..oldDest] == evens[..oldDest] && to[..newDest] == odds[..newDest]
        invariant forall k :: oldDest <= k < list_sz ==> list[k] == was[k]
      {
        var oldSrc := newSrc + 1;
        NextOdd(was, newDest);
        to[newDest] := list[newSrc];
        assert to[..newDest + 1] == to[..newDest] + [to[newDest]];
        newDest := newDest + 1;
        if oldSrc < list_sz {
          NextEven(was, oldDest);
          list[oldDest] := list[oldSrc];
          assert list[..oldDest + 1] == list[..oldDest] + [list[oldDest]];
          oldDest := oldDest + 1;
        }
        newSrc := newSrc + 2;
      }
    }

    static lemma NextOdd(s: seq<Tour>, k: nat)
      requires 2 * k + 1 < |s|
      ensures k < |Odds(s)| && Odds(s)[..k + 1] == Odds(s)[..k] + [s[2 * k + 1]]
    {
      hide Odds;
    }

    static lemma NextEven(s: seq<Tour>, k: nat)
      requires 2 * k < |s|
      ensures k < |Evens(s)| && Evens(s)[..k + 1] == Evens(s)[..k] + [s[2 * k]]
    {
      hide Evens;
    }

    // Moves every second tour to a new stack, compacting the old one in place. The new stack
    // has work only when there were two tours; the program also lets a split size of one through.
    method SplitStack(n: nat) returns (fork: TourStack)
      requires Valid() && list_sz >= 1 && list.Length == n * n
      modifies this`list_sz, list
      ensures Valid() && View() == Evens(old(View()))
      ensures fresh(fork) && fresh(fork.list) && fork.Valid() && fork.View() == Odds(old(View()))
      ensures fork.View() != [] <==> old(list_sz) >= 2
    {
      hide Evens, Odds;
      fork := new TourStack(n);
      var newDest, oldDest := Deal(fork.list);
      list_sz := oldDest;
      fork.list_sz := newDest;
    }
  }

  // The two halves of a split are the old stack, no tour lost or doubled.
  lemma {:induction false} SplitMultiset(s: seq<Tour>)
    ensures multiset(Evens(s)) + multiset(Odds(s)) == multiset(s)
    decreases |s|
  {
    if |s| >= 1 {
      SplitMultiset(s[1..]);
      assert s == [s[0]] + s[1..];
      if |s| >= 2 {
        assert s[1..][1..] == s[2..];
        assert Evens(s) == [s[0]] + Evens(s[2..]);
      }
    }
  }

  // ----- the search -----

  // The state machine's view of a process with this one thread.
  ghost function Alone(best: Tour, stack: seq<Tour>, phase: Phase): State {
    State(best, [Thread(stack, phase)])
  }

  // What the search keeps between two steps.
  ghost predicate Keeps(g: Graph, s: State, share: iset<seq<int>>) {
    g.Valid() && |s.threads| == 1 && Inv(g, s, share) && Fits(g, s.threads[0], MaxHeight(g.n))
  }

  // One step of the lone thread keeps the invariant and the stack bound, and gets closer to the end.
  lemma StepAlone(g: Graph, s: State, a: Action, s': State, share: iset<seq<int>>)
    requires Keeps(g, s, share) && !a.Split? && Enabled(s, a)
    requires a.Pop? || a.Consider? ==> Calm(s)
    requires s' == Apply(g, s, a)
    ensures Keeps(g, s', share)
    ensures Measure(g.n, s'.threads) < Measure(g.n, s.threads)
  {
    hide Inv, Fits, Measure, Act;
    assert Shape(g, s) by { InvShape(g, s, share); }
    StepKeeps(g, s, a, share) by { CalmIsEnough(g, s, a); }
    StepFits(g, s, a, MaxHeight(g.n));
    StepDecreases(g, s, a);
  }

  lemma InvShape(g: Graph, s: State, share: iset<seq<int>>)
    requires g.Valid() && Inv(g, s, share)
    ensures Shape(g, s)
  {
  }

  lemma CalmIsEnough(g: Graph, s: State, a: Action)
    requires Enabled(s, a) && (a.Pop? || a.Consider? ==> Calm(s))
    ensures ReadsBest(g, s, a) ==> Calm(s)
  {
  }

  // Update_best_tour without rivals: test again, copy, add the home town.
  method UpdateBestTour(g: Graph, tour: Tour, best: Tour, ghost stack: seq<Tour>, ghost share: iset<seq<int>>)
      returns (best': Tour)
    requires Keeps(g, Alone(best, stack, Updating(tour)), share)
    ensures Keeps(g, Alone(best', stack, Ready), share)
    ensures Measure(g.n, [Thread(stack, Ready)]) < Measure(g.n, [Thread(stack, Updating(tour))])
  {
    hide Measure, Inv, Fits, PathCost;
    ghost var s := Alone(best, stack, Updating(tour));
    InvShape(g, s, share);
    assert ThreadShape(g, s.threads[0], best);
    if Better(g, tour, best) {
      StepAlone(g, s, Lock(0), Alone(tour, stack, Closing(tour)), share);
      var copy := new TourStruct(g, tour);
      copy.AddCity(0);
      best' := copy.View();
      StepAlone(g, Alone(tour, stack, Closing(tour)), Close(0), Alone(best', stack, Ready), share);
    } else {
      best' := best;
      StepAlone(g, s, Lock(0), Alone(best', stack, Ready), share);
    }
  }

  // One neighbour: pushes a copy of the extended tour when it is feasible.
  method ConsiderCity(g: Graph, ghost t: Tour, curr: TourStruct, nbr: nat, best: Tour, stack: TourStack,
                      ghost share: iset<seq<int>>)
    requires g.Valid() && 1 <= nbr < g.n && stack.Valid() && stack.list.Length == g.n * g.n
    requires curr.Valid() && curr.g == g && curr.View() == t
    requires curr.cities as object != stack.list
    requires Keeps(g, Alone(best, stack.View(), Expanding(t, nbr)), share)
    modifies stack, stack.list, curr, curr.cities
    ensures stack.Valid() && curr.Valid() && curr.View() == t
    ensures Keeps(g, Alone(best, stack.View(), Expanding(t, nbr - 1)), share)
    ensures Measure(g.n, [Thread(stack.View(), Expanding(t, nbr - 1))]) <
            old(Measure(g.n, [Thread(stack.View(), Expanding(t, nbr))]))
  {
    hide Measure, Inv, Fits, PathCost, TourStack.View;
    ghost var s := Alone(best, stack.View(), Expanding(t, nbr));
    InvShape(g, s, share);
    assert ThreadShape(g, s.threads[0], best);
    var last := curr.cities[curr.count - 1];
    assert last == t.cities[|t.cities| - 1];
    var seen := curr.Visited(nbr);
    if !seen && curr.cost + g.Cost(last, nbr) < best.cost {
      curr.AddCity(nbr);
      FitsWithRoom(g, s, share);
      var ok := stack.PushCopy(curr.View());
      assert ok;
      curr.RemoveLastCity(t, nbr);
    }
    StepAlone(g, s, Consider(0), Alone(best, stack.View(), Expanding(t, nbr - 1)), share);
  }

  // The loop over neighbours, from the highest city down.
  method ExpandTour(g: Graph, t: Tour, best: Tour, stack: TourStack, ghost share: iset<seq<int>>)
    requires stack.Valid() && g.Valid() && stack.list.Length == g.n * g.n
    requires Keeps(g, Alone(best, stack.View(), Expanding(t, g.n - 1)), share)
    modifies stack, stack.list
    ensures stack.Valid() && Keeps(g, Alone(best, stack.View(), Ready), share)
    ensures Measure(g.n, [Thread(stack.View(), Ready)])
            < old(Measure(g.n, [Thread(stack.View(), Expanding(t, g.n - 1))]))
  {
    hide Measure, Inv, Fits, PathCost, TourStack.View, TourStruct.View;
    ghost var s := Alone(best, stack.View(), Expanding(t, g.n - 1));
    InvShape(g, s, share);
    assert ThreadShape(g, s.threads[0], best);
    var curr := new TourStruct(g, t);
    var nbr := g.n - 1;
    while nbr >= 1
      invariant 0 <= nbr < g.n
      invariant fresh(curr) && fresh(curr.cities) && curr.Valid() && curr.g == g && curr.View() == t
      invariant stack.Valid()
      invariant Keeps(g, Alone(best, stack.View(), Expanding(t, nbr)), share)
      invariant Measure(g.n, [Thread(stack.View(), Expanding(t, nbr))]) <=
                old(Measure(g.n, [Thread(stack.View(), Expanding(t, g.n - 1))]))
    {
      ConsiderCity(g, t, curr, nbr, best, stack, share);
      nbr := nbr - 1;
    }
    LastNeighbour(g, best, stack.View(), t, share);
  }

  lemma LastNeighbour(g: Graph, best: Tour, stack: seq<Tour>, t: Tour, share: iset<seq<int>>)
    requires Keeps(g, Alone(best, stack, Expanding(t, 0)), share)
    ensures Keeps(g, Alone(best, stack, Ready), share)
    ensures Measure(g.n, [Thread(stack, Ready)]) < Measure(g.n, [Thread(stack, Expanding(t, 0))])
  {
    hide Measure, Inv, Fits, PathCost;
    var s := Alone(best, stack, Expanding(t, 0));
    InvShape(g, s, share);
    assert ThreadShape(g, s.threads[0], best);
    StepAlone(g, s, Consider(0), Alone(best, stack, Ready), share);
  }

  // A feasible child still fits on the stack.
  lemma FitsWithRoom(g: Graph, s: State, share: iset<seq<int>>)
    requires Keeps(g, s, share) && s.threads[0].phase.Expanding?
    requires s.threads[0].phase.nbr > 0 && s.threads[0].phase.nbr !in s.threads[0].phase.t.cities
    ensures |s.threads[0].stack| < g.n * g.n
  {
    var t, nbr := s.threads[0].phase.t, s.threads[0].phase.nbr;
    UnvisitedMonotone(t.cities, nbr, g.n - 1);
    HeightFitsAllocation(g.n);
    assert ThreadShape(g, s.threads[0], s.best);
  }

  // Par_tree_search for a lone thread: pops until the stack is empty. No exit is reached, and
  // the result is a cheapest cycle among the full paths the stack covered at the start.
  method ParTreeSearch(g: Graph, stack: TourStack, ghost share: iset<seq<int>>) returns (best: Tour)
    requires g.Valid() && g.n >= 2 && stack.Valid() && stack.list.Length == g.n * g.n
    requires stack.list_sz <= g.n && forall k :: 0 <= k < stack.list_sz ==> Prefix(g, stack.View()[k])
    requires forall c :: c in share && Full(g, c) ==> OnStack(stack.View(), c)
    modifies stack, stack.list
    ensures stack.Valid() && stack.View() == []
    ensures Optimal(g, best, share)
  {
    hide Measure, Inv, Fits, PathCost, Act;
    best := NO_TOUR;
    StartAlone(g, stack.View(), share);
    while stack.list_sz > 0
      invariant stack.Valid()
      invariant Keeps(g, Alone(best, stack.View(), Ready), share)
      decreases Measure(g.n, [Thread(stack.View(), Ready)])
    {
      ghost var s := Alone(best, stack.View(), Ready);
      InvShape(g, s, share);
      var top := stack.Pop();
      var t := top.value;
      PoppedAlone(g, s, stack.View(), t, share);
      if |t.cities| == g.n {
        if Better(g, t, best) {
          best := UpdateBestTour(g, t, best, stack.View(), share);
        }
      } else {
        ExpandTour(g, t, best, stack, share);
      }
    }
    EndAlone(g, best, stack.View(), share);
  }

  lemma StartAlone(g: Graph, stack: seq<Tour>, share: iset<seq<int>>)
    requires g.Valid() && g.n >= 2 && |stack| <= g.n && forall k :: 0 <= k < |stack| ==> Prefix(g, stack[k])
    requires forall c :: c in share && Full(g, c) ==> OnStack(stack, c)
    ensures Keeps(g, Alone(NO_TOUR, stack, Ready), share)
  {
    hide PathCost;
    var s := Alone(NO_TOUR, stack, Ready);
    StartFits(g, s);
    forall c | c in share && Full(g, c)
      ensures Covered(s, c)
    {
      CoveredAt(s, 0, c);
    }
  }

  // After a pop the thread is where the state machine says.
  lemma PoppedAlone(g: Graph, s: State, rest: seq<Tour>, t: Tour, share: iset<seq<int>>)
    requires Keeps(g, s, share) && s == Alone(s.best, rest + [t], Ready)
    ensures Prefix(g, t)
    ensures
      var phase := if |t.cities| < g.n then Expanding(t, g.n - 1)
                   else if Better(g, t, s.best) then Updating(t) else Ready;
      && Keeps(g, Alone(s.best, rest, phase), share)
      && Measure(g.n, [Thread(rest, phase)]) < Measure(g.n, s.threads)
  {
    hide Measure, Inv, Fits, PathCost;
    InvShape(g, s, share);
    assert ThreadShape(g, s.threads[0], s.best) && s.threads[0].stack[|rest|] == t;
    assert (rest + [t])[..|rest|] == rest;
    var phase := if |t.cities| < g.n then Expanding(t, g.n - 1)
                 else if Better(g, t, s.best) then Updating(t) else Ready;
    StepAlone(g, s, Pop(0), Alone(s.best, rest, phase), share);
  }

  lemma EndAlone(g: Graph, best: Tour, stack: seq<Tour>, share: iset<seq<int>>)
    requires Keeps(g, Alone(best, stack, Ready), share) && stack == []
    ensures Optimal(g, best, share)
  {
    hide PathCost;
    var s := Alone(best, stack, Ready);
    assert Calm(s);
    assert forall c :: !Covered(s, c);
  }
}
