/**
 The task farm: a master with a stack and a count of idle workers, workers that hand half of
 a split interval back, and one first-in first-out channel each way between the master and
 every worker (messages between two processes do not overtake each other, section 3.5 of the
 MPI 3.1 standard). Every send, receive and split is a step, so runs are all interleavings.
 */
module QuadFarm {
  import opened Base
  import opened Sums
  import opened QuadArea

  // aquad3 hands back every right half; the second version only a task's first one.
  datatype Version = Every | First

  datatype Config = Config(p: Problem, version: Version, l: real, r: real)

  datatype Msg = Available(area: real, width: real) | AddTask(a: real, b: real)

  datatype Order = Execute(a: real, b: real) | NoMoreTasks

  datatype Phase =
    | Starting
    | Waiting
    // Inside curve_subarea; `may` while a right half may still be handed back.
    | Working(a: real, b: real, may: bool)
    | Finished

  datatype Worker = Worker(phase: Phase, inbox: seq<Order>, outbox: seq<Msg>)

  datatype Status = Listening | Done | NotFound

  datatype Master = Master(idle: int, avail: seq<bool>, stack: seq<Interval>,
                           progress: real, total: real, status: Status)

  // `log` is history only: the leaf intervals integrated so far.
  datatype State = State(master: Master, workers: seq<Worker>, log: multiset<Interval>)

  // ----- the master -----

  // The first worker flagged available, or the number of workers.
  function FirstAvail(avail: seq<bool>): (i: nat)
    ensures i <= |avail| && (i < |avail| ==> avail[i])
    ensures forall k :: 0 <= k < i ==> !avail[k]
  {
    if avail == [] || avail[0] then 0 else 1 + FirstAvail(avail[1..])
  }

  // The end test of the receive loop. With l == r the quotient is 0/0, which is not >= 1.
  predicate CanStop(m: Master, expected: real) {
    m.idle == |m.avail| && m.stack == [] && expected != 0.0 && m.progress / expected >= 1.0
  }

  // One received message: the new state, and the task sent to a worker, if any.
  function Handle(m: Master, w: nat, msg: Msg): (Master, Option<(nat, Interval)>)
    requires w < |m.avail|
  {
    match msg
    case Available(area, width) =>
      var m' := m.(total := m.total + area, progress := m.progress + width);
      if m.stack == [] then (m'.(idle := m.idle + 1, avail := m.avail[w := true]), None)
      else
        var top := |m.stack| - 1;
        (m'.(avail := m.avail[w := false], stack := m.stack[..top]), Some((w, m.stack[top])))
    case AddTask(a, b) =>
      if m.idle != 0 then
        var next := FirstAvail(m.avail);
        if next == |m.avail| then (m.(status := NotFound), None)
        else (m.(idle := m.idle - 1), Some((next, (a, b))))
      else (m.(stack := m.stack + [(a, b)]), None)
  }

  // ----- steps -----

  datatype Action = Start(w: nat) | Take(w: nat) | Work(w: nat) | Receive(w: nat)

  ghost predicate Enabled(s: State, a: Action) {
    && a.w < |s.workers| == |s.master.avail|
    && var wk := s.workers[a.w];
    match a
    case Start(_) => wk.phase.Starting?
    case Take(_) => wk.phase.Waiting? && wk.inbox != []
    case Work(_) => wk.phase.Working?
    case Receive(_) => s.master.status.Listening? && wk.outbox != []
  }

  // One level of curve_subarea: report a leaf, hand back a right half and go on with the left,
  // or, once the second version has handed back, integrate the rest alone.
  ghost function Advance(c: Config, wk: Worker): (Worker, multiset<Interval>)
    requires wk.phase.Working?
  {
    var (a, b) := (wk.phase.a, wk.phase.b);
    if wk.phase.may && Splits(c.p, a, b) then
      (wk.(phase := Working(a, Mid(a, b), c.version.Every?), outbox := wk.outbox + [AddTask(Mid(a, b), b)]),
       multiset{})
    else
      (wk.(phase := Waiting, outbox := wk.outbox + [Available(Area(c.p, a, b), b - a)]),
       multiset(Leaves(c.p, a, b)))
  }

  function Tell(workers: seq<Worker>, o: Order): seq<Worker> {
    seq(|workers|, i requires 0 <= i < |workers| => workers[i].(inbox := workers[i].inbox + [o]))
  }

  function Deliver(workers: seq<Worker>, send: Option<(nat, Interval)>): (r: seq<Worker>)
    requires send.Some? ==> send.value.0 < |workers|
    ensures |r| == |workers|
  {
    match send
    case None => workers
    case Some((to, task)) =>
      workers[to := workers[to].(inbox := workers[to].inbox + [Execute(task.0, task.1)])]
  }

  function Reception(c: Config, s: State, w: nat): State
    requires w < |s.workers| == |s.master.avail| && s.workers[w].outbox != []
  {
    var wk := s.workers[w];
    var (m, send) := Handle(s.master, w, wk.outbox[0]);
    var workers := Deliver(s.workers[w := wk.(outbox := wk.outbox[1..])], send);
    if m.status.Listening? && CanStop(m, c.r - c.l) then
      State(m.(status := Done), Tell(workers, NoMoreTasks), s.log)
    else State(m, workers, s.log)
  }

  ghost function Apply(c: Config, s: State, a: Action): State
    requires Enabled(s, a)
  {
    var wk := s.workers[a.w];
    match a
    case Start(w) =>
      s.(workers := s.workers[w := wk.(phase := Waiting, outbox := wk.outbox + [Available(0.0, 0.0)])])
    case Take(w) =>
      var phase := match wk.inbox[0]
                   case Execute(l, r) => Working(l, r, true)
                   case NoMoreTasks => Finished;
      s.(workers := s.workers[w := wk.(phase := phase, inbox := wk.inbox[1..])])
    case Work(w) =>
      var (wk', leaves) := Advance(c, wk);
      s.(workers := s.workers[w := wk'], log := s.log + leaves)
    case Receive(w) => Reception(c, s, w)
  }

  // ----- the start -----

  function StartOf(c: Config, n: nat, i: nat): real
    requires n > 0
  {
    c.l + i as real * ((c.r - c.l) / n as real)
  }

  // n tasks of equal width, pushed from left to right.
  function InitialTasks(c: Config, n: nat): (ts: seq<Interval>)
    requires n > 0
    ensures |ts| == n
    ensures forall i :: 0 <= i < n ==> ts[i] == (StartOf(c, n, i), StartOf(c, n, i + 1))
  {
    seq(n, i requires 0 <= i < n => (StartOf(c, n, i), StartOf(c, n, i + 1)))
  }

  // `workers` workers, and one task more than that on the stack.
  function InitialState(c: Config, workers: nat): State {
    State(Master(0, seq(workers, i => true), InitialTasks(c, workers + 1), 0.0, 0.0, Listening),
          seq(workers, i => Worker(Starting, [], [])), multiset{})
  }

  ghost predicate Runs(c: Config, s: State, actions: seq<Action>, s': State)
    decreases |actions|
  {
    if actions == [] then s == s'
    else Enabled(s, actions[0]) && Runs(c, Apply(c, s, actions[0]), actions[1..], s')
  }

  ghost predicate Stuck(s: State) {
    forall a :: !Enabled(s, a)
  }

  // ----- what a quantity is worth -----

  // The three things that are conserved: area, width, and the number of times `x` is a leaf.
  datatype Kind = AreaOf | WidthOf | CountOf(x: Interval)

  ghost function TaskVal(p: Problem, k: Kind, t: Interval): real {
    match k
    case AreaOf => Area(p, t.0, t.1)
    case WidthOf => t.1 - t.0
    case CountOf(x) => multiset(Leaves(p, t.0, t.1))[x] as real
  }

  ghost function MsgVal(p: Problem, k: Kind, m: Msg): real {
    match m
    case Available(area, width) => if k.AreaOf? then area else if k.WidthOf? then width else 0.0
    case AddTask(a, b) => TaskVal(p, k, (a, b))
  }

  ghost function OrderVal(p: Problem, k: Kind, o: Order): real {
    match o
    case Execute(a, b) => TaskVal(p, k, (a, b))
    case NoMoreTasks => 0.0
  }

  ghost function TaskF(p: Problem, k: Kind): Interval -> real { t => TaskVal(p, k, t) }
  ghost function MsgF(p: Problem, k: Kind): Msg -> real { m => MsgVal(p, k, m) }
  ghost function OrderF(p: Problem, k: Kind): Order -> real { o => OrderVal(p, k, o) }

  // What a worker still owes: its tasks, the one in hand, and reports on their way.
  ghost function WorkerVal(p: Problem, k: Kind, wk: Worker): real {
    Sum(wk.inbox, OrderF(p, k)) + Sum(wk.outbox, MsgF(p, k))
    + if wk.phase.Working? then TaskVal(p, k, (wk.phase.a, wk.phase.b)) else 0.0
  }

  ghost function WorkerF(p: Problem, k: Kind): Worker -> real { wk => WorkerVal(p, k, wk) }

  ghost function Settled(k: Kind, s: State): real {
    match k
    case AreaOf => s.master.total
    case WidthOf => s.master.progress
    case CountOf(x) => s.log[x] as real
  }

  ghost function Balance(p: Problem, k: Kind, s: State): real {
    Settled(k, s) + Sum(s.master.stack, TaskF(p, k)) + Sum(s.workers, WorkerF(p, k))
  }

  // A split task is worth its halves.
  lemma TaskSplits(p: Problem, k: Kind, a: real, b: real)
    requires Splits(p, a, b) && Finite(p, a, b)
    ensures TaskVal(p, k, (a, b)) == TaskVal(p, k, (a, Mid(a, b))) + TaskVal(p, k, (Mid(a, b), b))
  {
    SplitFacts(p, a, b);
    var left, right := Leaves(p, a, Mid(a, b)), Leaves(p, Mid(a, b), b);
    assert multiset(left + right) == multiset(left) + multiset(right);
  }

  // ----- invariants -----

  ghost predicate OrderOk(p: Problem, o: Order) { o.Execute? && Finite(p, o.a, o.b) }
  ghost predicate MsgOk(p: Problem, m: Msg) { m.AddTask? ==> Finite(p, m.a, m.b) }

  ghost function IsAvailable(): Msg -> real { (m: Msg) => if m.Available? then 1.0 else 0.0 }

  // Availability messages the master got from the worker, less tasks it sent to it.
  ghost function Credit(wk: Worker): real {
    (if wk.phase.Starting? then 0.0 else 1.0) - Sum(wk.outbox, IsAvailable())
    - (|wk.inbox| as real) - if wk.phase.Working? then 1.0 else 0.0
  }

  ghost function CreditF(): Worker -> real { wk => Credit(wk) }

  // While the master listens.
  ghost predicate WorkerOk(p: Problem, wk: Worker, flag: bool) {
    && !wk.phase.Finished?
    && (wk.phase.Starting? ==> wk.outbox == [])
    && (wk.phase.Waiting? ==> wk.outbox == [] || wk.outbox[|wk.outbox| - 1].Available?)
    && (wk.phase.Working? ==> Finite(p, wk.phase.a, wk.phase.b))
    && (forall i :: 0 <= i < |wk.inbox| ==> OrderOk(p, wk.inbox[i]))
    && (forall i :: 0 <= i < |wk.outbox| ==> MsgOk(p, wk.outbox[i]))
    && (!flag ==> Credit(wk) <= 0.0)
  }

  ghost predicate AllOk(p: Problem, workers: seq<Worker>, avail: seq<bool>) {
    && |workers| == |avail|
    && forall i :: 0 <= i < |workers| ==> WorkerOk(p, workers[i], avail[i])
  }

  // The idle count is the sum of the credits, and nobody idles while a task is stacked.
  ghost predicate ListeningInv(c: Config, s: State) {
    && |s.workers| > 0
    && AllOk(c.p, s.workers, s.master.avail)
    && s.master.idle >= 0
    && s.master.idle as real == Sum(s.workers, CreditF())
    && (s.master.stack != [] ==> s.master.idle == 0)
    && (forall i :: 0 <= i < |s.master.stack| ==> Finite(c.p, s.master.stack[i].0, s.master.stack[i].1))
  }

  // After the end test succeeded nothing is on its way but the order to stop.
  ghost predicate Released(wk: Worker) {
    wk == Worker(Waiting, [NoMoreTasks], []) || wk == Worker(Finished, [], [])
  }

  ghost predicate DoneInv(s: State) {
    && s.master.stack == [] && |s.workers| == |s.master.avail|
    && forall i :: 0 <= i < |s.workers| ==> Released(s.workers[i])
  }

  ghost predicate Inv(c: Config, s: State) {
    match s.master.status
    case Listening => ListeningInv(c, s) && !CanStop(s.master, c.r - c.l)
    case Done => DoneInv(s)
    case NotFound => false
  }

  // ----- workers' own steps -----

  // A worker's credit, worth and shape when it moves by itself.
  ghost predicate Moves(p: Problem, wk: Worker, wk': Worker, leaves: multiset<Interval>, flag: bool) {
    && WorkerOk(p, wk', flag)
    && Credit(wk') == Credit(wk)
    && (forall k: Kind :: WorkerVal(p, k, wk') ==
                          WorkerVal(p, k, wk) - if k.CountOf? then leaves[k.x] as real else 0.0)
  }

  lemma StartMoves(p: Problem, wk: Worker, flag: bool)
    requires WorkerOk(p, wk, flag) && wk.phase.Starting?
    ensures Moves(p, wk, wk.(phase := Waiting, outbox := wk.outbox + [Available(0.0, 0.0)]), multiset{}, flag)
  {
    var m := Available(0.0, 0.0);
    SumPush(wk.outbox, m, IsAvailable());
    forall k: Kind
      ensures Sum(wk.outbox + [m], MsgF(p, k)) == Sum(wk.outbox, MsgF(p, k))
    {
      SumPush(wk.outbox, m, MsgF(p, k));
    }
  }

  lemma TakeMoves(p: Problem, wk: Worker, flag: bool)
    requires WorkerOk(p, wk, flag) && wk.phase.Waiting? && wk.inbox != []
    ensures wk.inbox[0].Execute?
    ensures Moves(p, wk, wk.(phase := Working(wk.inbox[0].a, wk.inbox[0].b, true), inbox := wk.inbox[1..]),
                  multiset{}, flag)
  {
    assert OrderOk(p, wk.inbox[0]);
    forall k: Kind
      ensures Sum(wk.inbox, OrderF(p, k)) ==
              TaskVal(p, k, (wk.inbox[0].a, wk.inbox[0].b)) + Sum(wk.inbox[1..], OrderF(p, k))
    {
      SumTail(wk.inbox, OrderF(p, k));
    }
  }

  // Handing back a right half.
  lemma SplitMoves(c: Config, wk: Worker, flag: bool)
    requires WorkerOk(c.p, wk, flag) && wk.phase.Working?
    requires wk.phase.may && Splits(c.p, wk.phase.a, wk.phase.b)
    ensures Moves(c.p, wk, Advance(c, wk).0, Advance(c, wk).1, flag)
  {
    hide Splits, TaskVal, Finite;
    var p, a, b := c.p, wk.phase.a, wk.phase.b;
    var m := AddTask(Mid(a, b), b);
    SplitFacts(p, a, b);
    SumPush(wk.outbox, m, IsAvailable());
    forall k: Kind
      ensures Sum(wk.outbox + [m], MsgF(p, k)) == Sum(wk.outbox, MsgF(p, k)) + MsgVal(p, k, m)
      ensures TaskVal(p, k, (a, b)) == TaskVal(p, k, (a, Mid(a, b))) + TaskVal(p, k, (Mid(a, b), b))
    {
      SumPush(wk.outbox, m, MsgF(p, k));
      TaskSplits(p, k, a, b);
    }
  }

  // Reporting what is left of a task.
  lemma ReportMoves(c: Config, wk: Worker, flag: bool)
    requires WorkerOk(c.p, wk, flag) && wk.phase.Working?
    requires !(wk.phase.may && Splits(c.p, wk.phase.a, wk.phase.b))
    ensures Moves(c.p, wk, Advance(c, wk).0, Advance(c, wk).1, flag)
  {
    hide Splits, Area, Leaves;
    var p, a, b := c.p, wk.phase.a, wk.phase.b;
    var m := Available(Area(p, a, b), b - a);
    SumPush(wk.outbox, m, IsAvailable());
    forall k: Kind
      ensures Sum(wk.outbox + [m], MsgF(p, k)) == Sum(wk.outbox, MsgF(p, k)) + MsgVal(p, k, m)
    {
      SumPush(wk.outbox, m, MsgF(p, k));
    }
  }

  // Replacing a worker by one that moved keeps the invariant and the balance.
  lemma MoveKeeps(c: Config, s: State, w: nat, wk: Worker, leaves: multiset<Interval>)
    requires s.master.status.Listening? && Inv(c, s) && w < |s.workers|
    requires Moves(c.p, s.workers[w], wk, leaves, s.master.avail[w])
    ensures var s' := s.(workers := s.workers[w := wk], log := s.log + leaves);
            Inv(c, s') && forall k: Kind :: Balance(c.p, k, s') == Balance(c.p, k, s)
  {
    hide WorkerOk, WorkerVal, Credit, TaskVal, CanStop;
    var s' := s.(workers := s.workers[w := wk], log := s.log + leaves);
    SumUpdate(s.workers, w, wk, CreditF());
    forall k: Kind
      ensures Balance(c.p, k, s') == Balance(c.p, k, s)
    {
      SumUpdate(s.workers, w, wk, WorkerF(c.p, k));
    }
  }

  // ----- the master's step -----

  // Taking a message off a worker's outbox.
  lemma OutboxTail(p: Problem, wk: Worker, flag: bool)
    requires WorkerOk(p, wk, flag) && wk.outbox != []
    ensures var wk', m := wk.(outbox := wk.outbox[1..]), wk.outbox[0];
      && MsgOk(p, m)
      && Credit(wk') == Credit(wk) + (if m.Available? then 1.0 else 0.0)
      && (m.Available? ==> Credit(wk) <= 0.0)
      && WorkerOk(p, wk', true)
      && (!m.Available? ==> WorkerOk(p, wk', flag))
      && forall k: Kind :: WorkerVal(p, k, wk') == WorkerVal(p, k, wk) - MsgVal(p, k, m)
  {
    var wk', m := wk.(outbox := wk.outbox[1..]), wk.outbox[0];
    SumTail(wk.outbox, IsAvailable());
    SumNonNegative(wk.outbox[1..], IsAvailable());
    forall k: Kind
      ensures Sum(wk.outbox, MsgF(p, k)) == MsgVal(p, k, m) + Sum(wk'.outbox, MsgF(p, k))
    {
      SumTail(wk.outbox, MsgF(p, k));
    }
  }

  // Sending a task to a worker costs it one credit and adds the task's worth.
  lemma Sending(p: Problem, wk: Worker, t: Interval, flag: bool, flag': bool)
    requires WorkerOk(p, wk, flag) && Finite(p, t.0, t.1)
    requires !flag' ==> Credit(wk) <= 1.0
    ensures var wk' := wk.(inbox := wk.inbox + [Execute(t.0, t.1)]);
      && WorkerOk(p, wk', flag')
      && Credit(wk') == Credit(wk) - 1.0
      && forall k: Kind :: WorkerVal(p, k, wk') == WorkerVal(p, k, wk) + TaskVal(p, k, t)
  {
    forall k: Kind
      ensures Sum(wk.inbox + [Execute(t.0, t.1)], OrderF(p, k)) == Sum(wk.inbox, OrderF(p, k)) + TaskVal(p, k, t)
    {
      SumPush(wk.inbox, Execute(t.0, t.1), OrderF(p, k));
    }
  }

  // The state a reception reaches before the end test.
  ghost predicate Received(c: Config, s: State, s': State) {
    ListeningInv(c, s') && s'.master.status.Listening?
    && forall k: Kind :: Balance(c.p, k, s') == Balance(c.p, k, s)
  }

  function Handled(s: State, w: nat): State
    requires w < |s.workers| == |s.master.avail| && s.workers[w].outbox != []
  {
    var wk := s.workers[w];
    var (m, send) := Handle(s.master, w, wk.outbox[0]);
    State(m, Deliver(s.workers[w := wk.(outbox := wk.outbox[1..])], send), s.log)
  }

  // A worker reports and no task is stacked: it becomes idle.
  lemma ReportToIdle(c: Config, s: State, w: nat)
    requires ListeningInv(c, s) && s.master.status.Listening? && w < |s.workers|
    requires s.workers[w].outbox != [] && s.workers[w].outbox[0].Available? && s.master.stack == []
    ensures Received(c, s, Handled(s, w))
  {
    hide WorkerOk, WorkerVal, Credit, TaskVal, CanStop;
    var wk := s.workers[w];
    OutboxTail(c.p, wk, s.master.avail[w]);
    var wk' := wk.(outbox := wk.outbox[1..]);
    SumUpdate(s.workers, w, wk', CreditF());
    forall k: Kind
      ensures Balance(c.p, k, Handled(s, w)) == Balance(c.p, k, s)
    {
      SumUpdate(s.workers, w, wk', WorkerF(c.p, k));
    }
  }

  // A worker reports and gets the task on top of the stack.
  lemma ReportToTask(c: Config, s: State, w: nat)
    requires ListeningInv(c, s) && s.master.status.Listening? && w < |s.workers|
    requires s.workers[w].outbox != [] && s.workers[w].outbox[0].Available? && s.master.stack != []
    ensures Received(c, s, Handled(s, w))
  {
    hide WorkerOk, WorkerVal, Credit, TaskVal, CanStop;
    var wk, top := s.workers[w], |s.master.stack| - 1;
    var t := s.master.stack[top];
    OutboxTail(c.p, wk, s.master.avail[w]);
    var wk1 := wk.(outbox := wk.outbox[1..]);
    Sending(c.p, wk1, t, true, false);
    var wk2 := wk1.(inbox := wk1.inbox + [Execute(t.0, t.1)]);
    assert s.workers[w := wk1][w := wk2] == s.workers[w := wk2];
    SumUpdate(s.workers, w, wk2, CreditF());
    forall k: Kind
      ensures Balance(c.p, k, Handled(s, w)) == Balance(c.p, k, s)
    {
      SumUpdate(s.workers, w, wk2, WorkerF(c.p, k));
      assert s.master.stack == s.master.stack[..top] + [t];
      SumPush(s.master.stack[..top], t, TaskF(c.p, k));
    }
  }

  // A task comes back and nobody is idle: it is stacked.
  lemma AddToStack(c: Config, s: State, w: nat)
    requires ListeningInv(c, s) && s.master.status.Listening? && w < |s.workers|
    requires s.workers[w].outbox != [] && s.workers[w].outbox[0].AddTask? && s.master.idle == 0
    ensures Received(c, s, Handled(s, w))
  {
    hide WorkerOk, WorkerVal, Credit, TaskVal, CanStop;
    var wk := s.workers[w];
    OutboxTail(c.p, wk, s.master.avail[w]);
    var wk' := wk.(outbox := wk.outbox[1..]);
    SumUpdate(s.workers, w, wk', CreditF());
    forall k: Kind
      ensures Balance(c.p, k, Handled(s, w)) == Balance(c.p, k, s)
    {
      SumUpdate(s.workers, w, wk', WorkerF(c.p, k));
      SumPush(s.master.stack, (wk.outbox[0].a, wk.outbox[0].b), TaskF(c.p, k));
    }
  }

  // While somebody is idle, some worker is flagged available: the "not found" exit is dead.
  lemma IdleIsFlagged(c: Config, s: State)
    requires ListeningInv(c, s) && s.master.idle > 0
    ensures FirstAvail(s.master.avail) < |s.master.avail|
  {
    var i := SumPositive(s.workers, CreditF());
    assert WorkerOk(c.p, s.workers[i], s.master.avail[i]);
  }

  // A task comes back and is sent to the first worker flagged available.
  lemma AddToWorker(c: Config, s: State, w: nat)
    requires ListeningInv(c, s) && s.master.status.Listening? && w < |s.workers|
    requires s.workers[w].outbox != [] && s.workers[w].outbox[0].AddTask? && s.master.idle != 0
    ensures Received(c, s, Handled(s, w))
  {
    hide WorkerOk, WorkerVal, Credit, TaskVal, CanStop;
    IdleIsFlagged(c, s);
    var wk, next := s.workers[w], FirstAvail(s.master.avail);
    var t := (wk.outbox[0].a, wk.outbox[0].b);
    OutboxTail(c.p, wk, s.master.avail[w]);
    var mid := s.workers[w := wk.(outbox := wk.outbox[1..])];
    var to := mid[next];
    assert WorkerOk(c.p, to, s.master.avail[next]);
    Sending(c.p, to, t, true, true);
    var to' := to.(inbox := to.inbox + [Execute(t.0, t.1)]);
    SumUpdate(s.workers, w, mid[w], CreditF());
    SumUpdate(mid, next, to', CreditF());
    forall k: Kind
      ensures Balance(c.p, k, Handled(s, w)) == Balance(c.p, k, s)
    {
      SumUpdate(s.workers, w, mid[w], WorkerF(c.p, k));
      SumUpdate(mid, next, to', WorkerF(c.p, k));
    }
  }

  lemma HandledKeeps(c: Config, s: State, w: nat)
    requires ListeningInv(c, s) && s.master.status.Listening? && w < |s.workers|
    requires s.workers[w].outbox != []
    ensures Received(c, s, Handled(s, w))
  {
    hide *;
    if s.workers[w].outbox[0].Available? {
      if s.master.stack == [] { ReportToIdle(c, s, w); } else { ReportToTask(c, s, w); }
    } else {
      if s.master.idle == 0 { AddToStack(c, s, w); } else { AddToWorker(c, s, w); }
    }
  }

  // ----- quiescence -----

  lemma CreditAtMostOne(wk: Worker)
    ensures Credit(wk) <= 1.0
    ensures Credit(wk) == 1.0 ==>
              wk.inbox == [] && !wk.phase.Starting? && !wk.phase.Working? && Sum(wk.outbox, IsAvailable()) == 0.0
  {
    SumNonNegative(wk.outbox, IsAvailable());
  }

  // When all workers count as idle and no task is stacked, no task or message is on its way
  // anywhere: every report overtaken by nothing, the tasks sent before it have arrived too.
  lemma Quiescent(c: Config, s: State)
    requires ListeningInv(c, s) && s.master.idle == |s.workers|
    ensures forall i :: 0 <= i < |s.workers| ==> s.workers[i] == Worker(Waiting, [], [])
  {
    hide Credit;
    forall i | 0 <= i < |s.workers|
      ensures Credit(s.workers[i]) <= 1.0
    {
      CreditAtMostOne(s.workers[i]);
    }
    SumTight(s.workers, CreditF(), 1.0);
    forall i | 0 <= i < |s.workers|
      ensures s.workers[i] == Worker(Waiting, [], [])
    {
      var wk := s.workers[i];
      assert CreditF()(wk) == 1.0;
      CreditAtMostOne(wk);
      assert WorkerOk(c.p, wk, s.master.avail[i]);
      if wk.outbox != [] {
        SumNonNegative(wk.outbox[..|wk.outbox| - 1], IsAvailable());
      }
    }
  }

  lemma {:induction false} SumsOfQuiet(p: Problem, k: Kind, workers: seq<Worker>)
    requires forall i :: 0 <= i < |workers| ==> workers[i] == Worker(Waiting, [], []) || Released(workers[i])
    ensures Sum(workers, WorkerF(p, k)) == 0.0
    decreases |workers|
  {
    if workers != [] {
      var last := |workers| - 1;
      SumsOfQuiet(p, k, workers[..last]);
      var wk := workers[last];
      if wk.inbox != [] {
        SumPush([], NoMoreTasks, OrderF(p, k));
        assert [] + [NoMoreTasks] == [NoMoreTasks];
      }
    }
  }

  // The end test passes only on a quiescent farm, and telling the workers moves no work.
  lemma StopKeeps(c: Config, s: State)
    requires ListeningInv(c, s) && CanStop(s.master, c.r - c.l)
    ensures var s' := State(s.master.(status := Done), Tell(s.workers, NoMoreTasks), s.log);
            Inv(c, s') && forall k: Kind :: Balance(c.p, k, s') == Balance(c.p, k, s)
  {
    Quiescent(c, s);
    var s' := State(s.master.(status := Done), Tell(s.workers, NoMoreTasks), s.log);
    assert forall i :: 0 <= i < |s.workers| ==> s'.workers[i] == Worker(Waiting, [] + [NoMoreTasks], []);
    forall k: Kind
      ensures Balance(c.p, k, s') == Balance(c.p, k, s)
    {
      SumsOfQuiet(c.p, k, s.workers);
      SumsOfQuiet(c.p, k, s'.workers);
    }
  }

  // ----- every step -----

  lemma StepKeeps(c: Config, s: State, a: Action)
    requires Inv(c, s) && Enabled(s, a)
    ensures Inv(c, Apply(c, s, a))
    ensures forall k: Kind :: Balance(c.p, k, Apply(c, s, a)) == Balance(c.p, k, s)
  {
    hide WorkerVal, Credit, Balance, Advance, Handle, CanStop, TaskVal, Sum;
    if s.master.status.Listening? {
      var wk, flag := s.workers[a.w], s.master.avail[a.w];
      match a
      case Start(w) =>
        StartMoves(c.p, wk, flag);
        MoveKeeps(c, s, w, wk.(phase := Waiting, outbox := wk.outbox + [Available(0.0, 0.0)]), multiset{});
        assert s.log + multiset{} == s.log;
      case Take(w) =>
        TakeMoves(c.p, wk, flag);
        MoveKeeps(c, s, w, wk.(phase := Working(wk.inbox[0].a, wk.inbox[0].b, true), inbox := wk.inbox[1..]),
                  multiset{});
        assert s.log + multiset{} == s.log;
      case Work(w) =>
        if wk.phase.may && Splits(c.p, wk.phase.a, wk.phase.b) {
          SplitMoves(c, wk, flag);
        } else {
          ReportMoves(c, wk, flag);
        }
        MoveKeeps(c, s, w, Advance(c, wk).0, Advance(c, wk).1);
      case Receive(w) =>
        HandledKeeps(c, s, w);
        if CanStop(Handled(s, w).master, c.r - c.l) {
          StopKeeps(c, Handled(s, w));
        }
    } else {
      DoneStep(c, s, a);
    }
  }

  lemma DoneStep(c: Config, s: State, a: Action)
    requires s.master.status.Done? && DoneInv(s) && Enabled(s, a)
    ensures DoneInv(Apply(c, s, a)) && Apply(c, s, a).master == s.master && Apply(c, s, a).log == s.log
    ensures forall k: Kind :: Balance(c.p, k, Apply(c, s, a)) == Balance(c.p, k, s)
  {
    var s' := Apply(c, s, a);
    assert Released(s.workers[a.w]);
    assert a.Take? && s'.workers[a.w] == Worker(Finished, [], []);
    forall k: Kind
      ensures Balance(c.p, k, s') == Balance(c.p, k, s)
    {
      SumsOfQuiet(c.p, k, s.workers);
      SumsOfQuiet(c.p, k, s'.workers);
    }
  }

  lemma {:induction false} RunKeeps(c: Config, s: State, actions: seq<Action>, s': State)
    requires Inv(c, s) && Runs(c, s, actions, s')
    ensures Inv(c, s')
    ensures forall k: Kind :: Balance(c.p, k, s') == Balance(c.p, k, s)
    decreases |actions|
  {
    hide Inv, Balance, Apply;
    if actions != [] {
      StepKeeps(c, s, actions[0]);
      RunKeeps(c, Apply(c, s, actions[0]), actions[1..], s');
    }
  }

  // ----- results -----

  // The sequential recursion ends on every initial interval.
  ghost predicate AllFinite(c: Config, n: nat)
    requires n > 0
  {
    forall i :: 0 <= i < n ==> Finite(c.p, InitialTasks(c, n)[i].0, InitialTasks(c, n)[i].1)
  }

  lemma {:induction false} SumZero<T(!new)>(s: seq<T>, f: T -> real)
    requires forall i :: 0 <= i < |s| ==> f(s[i]) == 0.0
    ensures Sum(s, f) == 0.0
    decreases |s|
  {
    if s != [] {
      SumZero(s[..|s| - 1], f);
    }
  }

  lemma InitialInv(c: Config, workers: nat)
    requires workers > 0 && AllFinite(c, workers + 1)
    ensures Inv(c, InitialState(c, workers))
    ensures forall k: Kind :: Balance(c.p, k, InitialState(c, workers)) ==
                              Sum(InitialTasks(c, workers + 1), TaskF(c.p, k))
  {
    var s := InitialState(c, workers);
    SumZero(s.workers, CreditF());
    forall k: Kind
      ensures Sum(s.workers, WorkerF(c.p, k)) == 0.0
    {
      SumZero(s.workers, WorkerF(c.p, k));
    }
  }

  // Equal widths add up: task i starts i widths from the left end.
  lemma {:induction false} WidthsAddUp(c: Config, n: nat, i: nat)
    requires n > 0 && i <= n
    ensures Sum(InitialTasks(c, n)[..i], TaskF(c.p, WidthOf)) == StartOf(c, n, i) - c.l
    decreases i
  {
    if i > 0 {
      WidthsAddUp(c, n, i - 1);
      var ts := InitialTasks(c, n);
      assert ts[..i] == ts[..i - 1] + [ts[i - 1]];
      SumPush(ts[..i - 1], ts[i - 1], TaskF(c.p, WidthOf));
    }
  }

  lemma LastStart(c: Config, n: nat)
    requires n > 0
    ensures StartOf(c, n, 0) == c.l && StartOf(c, n, n) == c.r
  {
    Cancel(c.r - c.l, n as real);
  }

  lemma Cancel(x: real, y: real)
    requires y != 0.0
    ensures y * (x / y) == x
  {
  }

  // What the sequential program adds up: the areas of the initial intervals.
  ghost function SequentialTotal(c: Config, n: nat): real
    requires n > 0
  {
    Sum(InitialTasks(c, n), TaskF(c.p, AreaOf))
  }

  // In a quiescent farm everything is settled.
  lemma QuietBalance(c: Config, s: State, k: Kind)
    requires s.master.stack == []
    requires forall i :: 0 <= i < |s.workers| ==> s.workers[i] == Worker(Waiting, [], []) || Released(s.workers[i])
    ensures Balance(c.p, k, s) == Settled(k, s)
  {
    SumsOfQuiet(c.p, k, s.workers);
  }

  // A run that can go no further has stopped with every worker finished, unless l == r; then
  // the master keeps waiting for messages that nobody sends.
  lemma StuckMeansDone(c: Config, workers: nat, actions: seq<Action>, s: State)
    requires workers > 0 && AllFinite(c, workers + 1)
    requires Runs(c, InitialState(c, workers), actions, s) && Stuck(s)
    ensures c.l != c.r <==> s.master.status.Done?
    ensures forall i :: 0 <= i < |s.workers| ==>
              s.workers[i] == if c.l != c.r then Worker(Finished, [], []) else Worker(Waiting, [], [])
    ensures s.master.stack == [] && |s.workers| == |s.master.avail|
  {
    hide Balance, StartOf, InitialState, InitialTasks, Enabled, CanStop;
    InitialInv(c, workers);
    RunKeeps(c, InitialState(c, workers), actions, s);
    if s.master.status.Listening? {
      StuckListening(c, s);
      QuietBalance(c, s, WidthOf);
      WholeWidth(c, workers + 1);
      FullProgressStops(s.master, c.r - c.l);
    } else {
      StuckDone(s);
      if c.l == c.r {
        NeverDoneOnEmpty(c, workers, actions, s);
      }
    }
  }

  lemma StuckDone(s: State)
    requires DoneInv(s) && Stuck(s)
    ensures forall i :: 0 <= i < |s.workers| ==> s.workers[i] == Worker(Finished, [], [])
  {
    forall i | 0 <= i < |s.workers|
      ensures s.workers[i] == Worker(Finished, [], [])
    {
      assert Released(s.workers[i]) && !Enabled(s, Take(i));
    }
  }

  lemma WholeWidth(c: Config, n: nat)
    requires n > 0
    ensures Sum(InitialTasks(c, n), TaskF(c.p, WidthOf)) == c.r - c.l
  {
    WidthsAddUp(c, n, n);
    LastStart(c, n);
    assert InitialTasks(c, n)[..n] == InitialTasks(c, n);
  }

  lemma FullProgressStops(m: Master, expected: real)
    requires m.idle == |m.avail| && m.stack == [] && m.progress == expected
    ensures CanStop(m, expected) <==> expected != 0.0
  {
  }

  lemma StuckListening(c: Config, s: State)
    requires ListeningInv(c, s) && s.master.status.Listening? && Stuck(s)
    ensures s.master.idle == |s.workers| && s.master.stack == []
    ensures forall i :: 0 <= i < |s.workers| ==> s.workers[i] == Worker(Waiting, [], [])
  {
    forall i | 0 <= i < |s.workers|
      ensures s.workers[i] == Worker(Waiting, [], []) && CreditF()(s.workers[i]) == 1.0
    {
      assert !Enabled(s, Start(i)) && !Enabled(s, Take(i)) && !Enabled(s, Work(i)) && !Enabled(s, Receive(i));
      assert WorkerOk(c.p, s.workers[i], s.master.avail[i]);
    }
    SumBounds(s.workers, CreditF(), 1.0, 1.0);
  }

  // With l == r the end test never passes.
  lemma {:induction false} NeverDoneOnEmpty(c: Config, workers: nat, actions: seq<Action>, s: State)
    requires Runs(c, InitialState(c, workers), actions, s) && c.l == c.r
    ensures !s.master.status.Done?
  {
    NeverDoneFrom(c, InitialState(c, workers), actions, s);
  }

  lemma {:induction false} NeverDoneFrom(c: Config, s: State, actions: seq<Action>, s': State)
    requires Runs(c, s, actions, s') && c.l == c.r && !s.master.status.Done?
    ensures !s'.master.status.Done?
    decreases |actions|
  {
    hide Advance, Deliver;
    if actions != [] {
      NeverDoneFrom(c, Apply(c, s, actions[0]), actions[1..], s');
    }
  }

  // The farm refines the sequential program: when the master stops, its total is the sum of
  // the sequential areas of the initial intervals, for any number of workers, either version
  // and any interleaving, and the progress is the whole width.
  lemma FarmRefinesSequential(c: Config, workers: nat, actions: seq<Action>, s: State)
    requires workers > 0 && AllFinite(c, workers + 1)
    requires Runs(c, InitialState(c, workers), actions, s) && s.master.status.Done?
    ensures s.master.total == SequentialTotal(c, workers + 1)
    ensures s.master.progress == c.r - c.l
  {
    hide Balance, StartOf;
    InitialInv(c, workers);
    RunKeeps(c, InitialState(c, workers), actions, s);
    QuietBalance(c, s, AreaOf);
    QuietBalance(c, s, WidthOf);
    WholeWidth(c, workers + 1);
  }

  // Leaves of the first i initial intervals, from left to right.
  ghost function LeavesUpTo(c: Config, n: nat, i: nat): seq<Interval>
    requires n > 0 && i <= n
  {
    if i == 0 then []
    else LeavesUpTo(c, n, i - 1) + Leaves(c.p, InitialTasks(c, n)[i - 1].0, InitialTasks(c, n)[i - 1].1)
  }

  lemma {:induction false} LeavesUpToFacts(c: Config, n: nat, i: nat, x: Interval)
    requires n > 0 && i <= n && AllFinite(c, n)
    ensures i > 0 ==> Tiles(LeavesUpTo(c, n, i), c.l, StartOf(c, n, i))
    ensures multiset(LeavesUpTo(c, n, i))[x] as real == Sum(InitialTasks(c, n)[..i], TaskF(c.p, CountOf(x)))
    decreases i
  {
    if i > 0 {
      LeavesUpToFacts(c, n, i - 1, x);
      var ts := InitialTasks(c, n);
      var before, here := LeavesUpTo(c, n, i - 1), Leaves(c.p, ts[i - 1].0, ts[i - 1].1);
      LeavesTile(c.p, ts[i - 1].0, ts[i - 1].1);
      LastStart(c, n);
      if i > 1 {
        TilesAppend(before, here, c.l, StartOf(c, n, i - 1), StartOf(c, n, i));
      } else {
        assert before + here == here;
      }
      assert ts[..i] == ts[..i - 1] + [ts[i - 1]];
      SumPush(ts[..i - 1], ts[i - 1], TaskF(c.p, CountOf(x)));
      assert multiset(before + here) == multiset(before) + multiset(here);
    }
  }

  // The leaf intervals the workers integrated are those of the sequential recursion, each
  // exactly once, and laid end to end they tile [l, r].
  lemma LeavesTileTheRange(c: Config, workers: nat, actions: seq<Action>, s: State)
    requires workers > 0 && AllFinite(c, workers + 1)
    requires Runs(c, InitialState(c, workers), actions, s) && s.master.status.Done?
    ensures s.log == multiset(LeavesUpTo(c, workers + 1, workers + 1))
    ensures Tiles(LeavesUpTo(c, workers + 1, workers + 1), c.l, c.r)
  {
    hide Balance, StartOf, LeavesUpTo;
    var n := workers + 1;
    InitialInv(c, workers);
    RunKeeps(c, InitialState(c, workers), actions, s);
    LastStart(c, n);
    var ts := InitialTasks(c, n);
    assert ts[..n] == ts;
    forall x: Interval
      ensures s.log[x] == multiset(LeavesUpTo(c, n, n))[x]
    {
      LeavesUpToFacts(c, n, n, x);
      QuietBalance(c, s, CountOf(x));
    }
    LeavesUpToFacts(c, n, n, (0.0, 0.0));
  }
}
