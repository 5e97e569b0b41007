/** Every run of the task farm is finite, with a bound known at the start. */
module QuadTerm {
  import opened Base
  import opened Sums
  import opened QuadArea
  import opened QuadFarm

  // Eight for every leaf below the interval, so that each hop of a task can cost one.
  ghost function Size(p: Problem, a: real, b: real): real {
    8.0 * |Leaves(p, a, b)| as real
  }

  lemma SizeFacts(p: Problem, a: real, b: real)
    requires Finite(p, a, b)
    ensures Size(p, a, b) >= 8.0
    ensures Splits(p, a, b) ==> Size(p, a, b) == Size(p, a, Mid(a, b)) + Size(p, Mid(a, b), b)
  {
    if Splits(p, a, b) {
      SplitFacts(p, a, b);
    }
  }

  ghost function StackF(p: Problem): Interval -> real { (t: Interval) => Size(p, t.0, t.1) - 2.0 }

  ghost function OrderCost(p: Problem): Order -> real {
    (o: Order) => match o case Execute(a, b) => Size(p, a, b) - 3.0 case NoMoreTasks => 1.0
  }

  ghost function MsgCost(p: Problem): Msg -> real {
    (m: Msg) => match m case Available(_, _) => 1.0 case AddTask(a, b) => Size(p, a, b) - 1.0
  }

  ghost function PhaseCost(p: Problem, ph: Phase): real {
    match ph
    case Starting => 2.0
    case Working(a, b, _) => Size(p, a, b) - 4.0
    case _ => 0.0
  }

  ghost function WorkerCost(p: Problem, wk: Worker): real {
    PhaseCost(p, wk.phase) + Sum(wk.inbox, OrderCost(p)) + Sum(wk.outbox, MsgCost(p))
  }

  ghost function WorkerCostF(p: Problem): Worker -> real { wk => WorkerCost(p, wk) }

  // Steps still possible, at most: what the tasks can cost, and telling everybody to stop.
  ghost function Measure(p: Problem, s: State): real {
    Sum(s.master.stack, StackF(p)) + Sum(s.workers, WorkerCostF(p))
    + if s.master.status.Listening? then |s.workers| as real + 1.0 else 0.0
  }

  // ----- workers -----

  lemma AdvanceCheapens(c: Config, wk: Worker)
    requires wk.phase.Working? && Finite(c.p, wk.phase.a, wk.phase.b)
    ensures WorkerCost(c.p, Advance(c, wk).0) <= WorkerCost(c.p, wk) - 1.0
  {
    hide Splits, Area, Leaves, Size, Finite;
    SizeFacts(c.p, wk.phase.a, wk.phase.b);
    var wk' := Advance(c, wk).0;
    SumPush(wk.outbox, wk'.outbox[|wk.outbox|], MsgCost(c.p));
  }

  lemma StartCheapens(p: Problem, wk: Worker)
    requires wk.phase.Starting?
    ensures WorkerCost(p, wk.(phase := Waiting, outbox := wk.outbox + [Available(0.0, 0.0)])) == WorkerCost(p, wk) - 1.0
  {
    SumPush(wk.outbox, Available(0.0, 0.0), MsgCost(p));
  }

  lemma TakeCheapens(p: Problem, wk: Worker, phase: Phase)
    requires wk.phase.Waiting? && wk.inbox != []
    requires match wk.inbox[0] case Execute(a, b) => phase == Working(a, b, true) case NoMoreTasks => phase == Finished
    ensures WorkerCost(p, wk.(phase := phase, inbox := wk.inbox[1..])) == WorkerCost(p, wk) - 1.0
  {
    SumTail(wk.inbox, OrderCost(p));
  }

  lemma SendCosts(p: Problem, wk: Worker, o: Order)
    ensures WorkerCost(p, wk.(inbox := wk.inbox + [o])) == WorkerCost(p, wk) + OrderCost(p)(o)
  {
    SumPush(wk.inbox, o, OrderCost(p));
  }

  lemma OutboxCosts(p: Problem, wk: Worker)
    requires wk.outbox != []
    ensures WorkerCost(p, wk.(outbox := wk.outbox[1..])) == WorkerCost(p, wk) - MsgCost(p)(wk.outbox[0])
  {
    SumTail(wk.outbox, MsgCost(p));
  }

  // ----- the master -----

  // Delivering a task adds its cost to the workers.
  lemma DeliverCosts(p: Problem, workers: seq<Worker>, send: Option<(nat, Interval)>)
    requires send.Some? ==> send.value.0 < |workers|
    ensures Sum(Deliver(workers, send), WorkerCostF(p)) ==
            Sum(workers, WorkerCostF(p))
            + if send.Some? then Size(p, send.value.1.0, send.value.1.1) - 3.0 else 0.0
  {
    hide WorkerCost, Size;
    if send.Some? {
      var (to, task) := send.value;
      var o := Execute(task.0, task.1);
      SendCosts(p, workers[to], o);
      SumUpdate(workers, to, workers[to].(inbox := workers[to].inbox + [o]), WorkerCostF(p));
    }
  }

  // What handling a message does to the stack, against what the message was worth.
  lemma HandleCosts(p: Problem, m: Master, w: nat, msg: Msg)
    requires w < |m.avail|
    requires msg.AddTask? && m.idle != 0 ==> FirstAvail(m.avail) < |m.avail|
    ensures
      var (m', send) := Handle(m, w, msg);
      Sum(m'.stack, StackF(p)) + (if send.Some? then Size(p, send.value.1.0, send.value.1.1) - 3.0 else 0.0)
        <= Sum(m.stack, StackF(p)) + MsgCost(p)(msg) - 1.0
  {
    hide Size;
    if msg.Available? && m.stack != [] {
      var top := |m.stack| - 1;
      SumPush(m.stack[..top], m.stack[top], StackF(p));
      assert m.stack[..top] + [m.stack[top]] == m.stack;
    } else if msg.AddTask? && m.idle == 0 {
      SumPush(m.stack, (msg.a, msg.b), StackF(p));
    }
  }

  lemma {:induction false} TellCosts(p: Problem, workers: seq<Worker>)
    ensures Sum(Tell(workers, NoMoreTasks), WorkerCostF(p)) == Sum(workers, WorkerCostF(p)) + |workers| as real
    decreases |workers|
  {
    hide WorkerCost;
    if workers != [] {
      var last := |workers| - 1;
      TellCosts(p, workers[..last]);
      assert Tell(workers, NoMoreTasks)[..last] == Tell(workers[..last], NoMoreTasks);
      SendCosts(p, workers[last], NoMoreTasks);
    }
  }

  lemma HandledCheapens(c: Config, s: State, w: nat)
    requires ListeningInv(c, s) && s.master.status.Listening? && w < |s.workers| && s.workers[w].outbox != []
    ensures Measure(c.p, Handled(s, w)) <= Measure(c.p, s) - 1.0
    ensures Handled(s, w).master.status.Listening?
  {
    hide WorkerCost, Size, Deliver, Handle, WorkerOk, Credit;
    var wk := s.workers[w];
    var msg := wk.outbox[0];
    if msg.AddTask? && s.master.idle != 0 {
      IdleIsFlagged(c, s);
    }
    HandledKeeps(c, s, w);
    var send := Handle(s.master, w, msg).1;
    assert send.Some? ==> send.value.0 < |s.workers| by { HandleTarget(s.master, w, msg); }
    HandleCosts(c.p, s.master, w, msg);
    OutboxCosts(c.p, wk);
    var wk' := wk.(outbox := wk.outbox[1..]);
    SumUpdate(s.workers, w, wk', WorkerCostF(c.p));
    DeliverCosts(c.p, s.workers[w := wk'], send);
  }

  lemma HandleTarget(m: Master, w: nat, msg: Msg)
    requires w < |m.avail|
    ensures Handle(m, w, msg).1.Some? ==> Handle(m, w, msg).1.value.0 < |m.avail|
  {
  }

  lemma ReceiveCheapens(c: Config, s: State, w: nat)
    requires ListeningInv(c, s) && s.master.status.Listening? && w < |s.workers| && s.workers[w].outbox != []
    ensures Measure(c.p, Reception(c, s, w)) <= Measure(c.p, s) - 1.0
  {
    hide WorkerCost, Size, Handle, Deliver, WorkerOk, Credit, CanStop;
    HandledCheapens(c, s, w);
    TellCosts(c.p, Handled(s, w).workers);
  }

  lemma WorkingIsFinite(c: Config, s: State, w: nat)
    requires Inv(c, s) && w < |s.workers| && s.workers[w].phase.Working?
    ensures Finite(c.p, s.workers[w].phase.a, s.workers[w].phase.b)
  {
    assert s.master.status.Done? ==> Released(s.workers[w]);
    assert s.master.status.Listening? ==> WorkerOk(c.p, s.workers[w], s.master.avail[w]);
  }

  // Every step lowers the measure by at least one.
  lemma StepCheapens(c: Config, s: State, a: Action)
    requires Inv(c, s) && Enabled(s, a)
    ensures Measure(c.p, Apply(c, s, a)) <= Measure(c.p, s) - 1.0
  {
    hide WorkerCost, Size, Reception, Advance, Credit, CanStop;
    var wk := s.workers[a.w];
    match a
    case Start(w) =>
      StartCheapens(c.p, wk);
      SumUpdate(s.workers, w, Apply(c, s, a).workers[w], WorkerCostF(c.p));
    case Take(w) =>
      TakeCheapens(c.p, wk, Apply(c, s, a).workers[w].phase);
      SumUpdate(s.workers, w, Apply(c, s, a).workers[w], WorkerCostF(c.p));
    case Work(w) =>
      WorkingIsFinite(c, s, w);
      AdvanceCheapens(c, wk);
      SumUpdate(s.workers, w, Apply(c, s, a).workers[w], WorkerCostF(c.p));
    case Receive(w) =>
      ReceiveCheapens(c, s, w);
  }

  // The measure is never negative: every task on its way has a leaf.
  lemma MeasureNonNegative(c: Config, s: State)
    requires Inv(c, s)
    ensures Measure(c.p, s) >= 0.0
  {
    hide Size, Credit, CanStop, Finite;
    forall i | 0 <= i < |s.workers|
      ensures WorkerCost(c.p, s.workers[i]) >= 0.0
    {
      WorkerCostNonNegative(c, s, i);
    }
    SumNonNegative(s.workers, WorkerCostF(c.p));
    forall i | 0 <= i < |s.master.stack|
      ensures Size(c.p, s.master.stack[i].0, s.master.stack[i].1) >= 8.0
    {
      SizeFacts(c.p, s.master.stack[i].0, s.master.stack[i].1);
    }
    SumNonNegative(s.master.stack, StackF(c.p));
  }

  lemma WorkerCostNonNegative(c: Config, s: State, i: nat)
    requires Inv(c, s) && i < |s.workers|
    ensures WorkerCost(c.p, s.workers[i]) >= 0.0
  {
    hide Size, Credit, CanStop, Finite, Sum;
    var wk := s.workers[i];
    if s.master.status.Listening? {
      assert WorkerOk(c.p, wk, s.master.avail[i]);
    } else {
      assert Released(wk);
    }
    if wk.phase.Working? {
      SizeFacts(c.p, wk.phase.a, wk.phase.b);
    }
    forall k | 0 <= k < |wk.inbox|
      ensures OrderCost(c.p)(wk.inbox[k]) >= 0.0
    {
      if wk.inbox[k].Execute? {
        assert s.master.status.Listening? ==> OrderOk(c.p, wk.inbox[k]);
        SizeFacts(c.p, wk.inbox[k].a, wk.inbox[k].b);
      }
    }
    SumNonNegative(wk.inbox, OrderCost(c.p));
    forall k | 0 <= k < |wk.outbox|
      ensures MsgCost(c.p)(wk.outbox[k]) >= 0.0
    {
      if wk.outbox[k].AddTask? {
        assert s.master.status.Listening? ==> MsgOk(c.p, wk.outbox[k]);
        SizeFacts(c.p, wk.outbox[k].a, wk.outbox[k].b);
      }
    }
    SumNonNegative(wk.outbox, MsgCost(c.p));
  }

  // No run is longer than the measure of the state it starts from.
  lemma {:induction false} RunIsFinite(c: Config, s: State, actions: seq<Action>, s': State)
    requires Inv(c, s) && Runs(c, s, actions, s')
    ensures |actions| as real <= Measure(c.p, s)
    decreases |actions|
  {
    hide Inv, Measure, Apply;
    if actions == [] {
      MeasureNonNegative(c, s);
    } else {
      StepCheapens(c, s, actions[0]);
      StepKeeps(c, s, actions[0]);
      RunIsFinite(c, Apply(c, s, actions[0]), actions[1..], s');
    }
  }
}
