/**
 The bounded buffer on split binary semaphores: the shared fields, SIGNAL, and deposit and
 consume as atomic steps between semaphore operations, for any number of producers and
 consumers. A thread holds the critical region from taking one semaphore to posting one.
 */
module BufferSpec {

  datatype Shared = Shared(
    buffer: seq<int>,
    // pending[i][j]: consumer j has not read position i
    pending: seq<seq<int>>,
    nextConsume: seq<nat>,
    nextWrite: nat,
    waitForDeposit: int,
    waitForRead: seq<int>,
    nW: int,
    nR: seq<int>,
    // semaphore values
    e: int,
    sW: int,
    sR: seq<int>)

  datatype ProducerAt =
    | Outside
    | Checking
    // parked at sW, and woken
    | Parked
    | Woken
    // active: before reading the index, before the store, after it, and back in the region
    | Indexing
    | Storing(at: nat)
    | Stored(at: nat)
    | Finishing(at: nat)

  // `todo` are the values still to deposit, the current one first.
  datatype Producer = Producer(pc: ProducerAt, todo: seq<int>)

  datatype ConsumerAt =
    | Away
    | Looking
    | Asleep(at: nat)
    | Roused(at: nat)
    | Reading(at: nat)
    | Fetched(at: nat, data: int)
    | Leaving(at: nat, data: int)

  // `left` values still to consume, `got` those returned so far.
  datatype Consumer = Consumer(pc: ConsumerAt, left: nat, got: seq<int>)

  datatype State = State(m: Shared, ps: seq<Producer>, cs: seq<Consumer>)

  // n positions, and as many pending marks a position as there are consumers.
  ghost predicate Sized(m: Shared, n: nat, c: nat) {
    && n > 0
    && |m.buffer| == n && |m.pending| == n && |m.waitForRead| == n && |m.nR| == n && |m.sR| == n
    && (forall i :: 0 <= i < n ==> |m.pending[i]| == c)
    && |m.nextConsume| == c && (forall j :: 0 <= j < c ==> m.nextConsume[j] < n)
    && m.nextWrite < n
  }

  function Create(n: nat, c: nat): Shared {
    Shared(seq(n, i => 0), seq(n, i => seq(c, j => 0)), seq(c, j => 0), 0, 0, seq(n, i => 0), 0, seq(n, i => 0),
           1, 0, seq(n, i => 0))
  }

  predicate Zero(marks: seq<int>) {
    forall j :: 0 <= j < |marks| ==> marks[j] == 0
  }

  // The first position from `i` on with somebody waiting to read, or the last plus one.
  function FirstWaiting(waiting: seq<int>, i: nat): (k: nat)
    requires i <= |waiting|
    ensures i <= k <= |waiting| && (k < |waiting| ==> waiting[k] > 0)
    ensures forall x :: i <= x < k ==> waiting[x] <= 0
    decreases |waiting| - i
  {
    if i == |waiting| || waiting[i] > 0 then i else FirstWaiting(waiting, i + 1)
  }

  // Passes the baton: to a waiting reader, else to a waiting writer whose slot is free, else
  // back to the entry semaphore.
  function Signal(m: Shared): Shared
    requires m.nextWrite < |m.pending| && m.nextWrite < |m.nR| && |m.sR| == |m.waitForRead|
  {
    var i := FirstWaiting(m.waitForRead, 0);
    if m.nW == 0 && i < |m.waitForRead| && m.nextConsume != [] then
      m.(waitForRead := m.waitForRead[i := m.waitForRead[i] - 1], sR := m.sR[i := m.sR[i] + 1])
    else if Zero(m.pending[m.nextWrite]) && m.nW == 0 && m.nR[m.nextWrite] == 0 && m.waitForDeposit > 0 then
      m.(waitForDeposit := m.waitForDeposit - 1, sW := m.sW + 1)
    else m.(e := m.e + 1)
  }

  function Next(i: nat, n: nat): nat {
    if i + 1 == n then 0 else i + 1
  }

  // ----- producer steps -----

  ghost predicate ProducerReady(m: Shared, p: Producer) {
    match p.pc
    case Outside => p.todo != [] && m.e > 0
    case Parked => m.sW > 0
    case Stored(_) => m.e > 0
    case _ => true
  }

  // What the step needs to be well defined; kept by every step.
  ghost predicate ProducerFine(m: Shared, p: Producer) {
    && (p.pc.Outside? || p.todo != [])
    && (p.pc.Storing? || p.pc.Stored? || p.pc.Finishing? ==> p.pc.at < |m.buffer|)
  }

  function ProducerStep(m: Shared, p: Producer, n: nat, c: nat): (Shared, Producer)
    requires Sized(m, n, c) && ProducerFine(m, p)
  {
    match p.pc
    case Outside => (m.(e := m.e - 1), p.(pc := Checking))
    case Checking =>
      if !Zero(m.pending[m.nextWrite]) then
        (m.(waitForDeposit := m.waitForDeposit + 1, e := m.e + 1), p.(pc := Parked))
      else (Signal(m.(nW := m.nW + 1)), p.(pc := Indexing))
    case Parked => (m.(sW := m.sW - 1), p.(pc := Woken))
    case Woken => (Signal(m.(nW := m.nW + 1)), p.(pc := Indexing))
    case Indexing => (m, p.(pc := Storing(m.nextWrite)))
    case Storing(at) => (m.(buffer := m.buffer[at := p.todo[0]]), p.(pc := Stored(at)))
    case Stored(at) => (m.(e := m.e - 1), p.(pc := Finishing(at)))
    case Finishing(at) =>
      (Signal(m.(nW := m.nW - 1, pending := m.pending[at := seq(c, j => 1)], nextWrite := Next(m.nextWrite, n))),
       Producer(Outside, p.todo[1..]))
  }

  // ----- consumer steps -----

  ghost predicate ConsumerReady(m: Shared, k: Consumer) {
    match k.pc
    case Away => k.left > 0 && m.e > 0
    case Asleep(at) => at < |m.sR| && m.sR[at] > 0
    case Fetched(_, _) => m.e > 0
    case _ => true
  }

  ghost predicate ConsumerFine(m: Shared, k: Consumer) {
    && (k.pc.Away? || k.left > 0)
    && (!k.pc.Away? && !k.pc.Looking? ==> k.pc.at < |m.buffer|)
  }

  function ConsumerStep(m: Shared, k: Consumer, t: nat, n: nat, c: nat): (Shared, Consumer)
    requires Sized(m, n, c) && ConsumerFine(m, k) && t < c
  {
    match k.pc
    case Away => (m.(e := m.e - 1), k.(pc := Looking))
    case Looking =>
      var at := m.nextConsume[t];
      var m' := m.(nextConsume := m.nextConsume[t := Next(at, n)]);
      if m.pending[at][t] == 0 then
        (m'.(waitForRead := m.waitForRead[at := m.waitForRead[at] + 1], e := m.e + 1), k.(pc := Asleep(at)))
      else (Signal(m'.(nR := m.nR[at := m.nR[at] + 1])), k.(pc := Reading(at)))
    case Asleep(at) => (m.(sR := m.sR[at := m.sR[at] - 1]), k.(pc := Roused(at)))
    case Roused(at) => (Signal(m.(nR := m.nR[at := m.nR[at] + 1])), k.(pc := Reading(at)))
    case Reading(at) => (m, k.(pc := Fetched(at, m.buffer[at])))
    case Fetched(at, data) => (m.(e := m.e - 1), k.(pc := Leaving(at, data)))
    case Leaving(at, data) =>
      (Signal(m.(nR := m.nR[at := m.nR[at] - 1], pending := m.pending[at := m.pending[at][t := m.pending[at][t] - 1]])),
       Consumer(Away, k.left - 1, k.got + [data]))
  }

  // ----- the whole system -----

  datatype Action = Produce(p: nat) | Consume(t: nat)

  ghost predicate Fine(s: State, n: nat) {
    && Sized(s.m, n, |s.cs|)
    && (forall i :: 0 <= i < |s.ps| ==> ProducerFine(s.m, s.ps[i]))
    && (forall j :: 0 <= j < |s.cs| ==> ConsumerFine(s.m, s.cs[j]))
  }

  ghost predicate Enabled(s: State, a: Action) {
    match a
    case Produce(p) => p < |s.ps| && ProducerReady(s.m, s.ps[p])
    case Consume(t) => t < |s.cs| && ConsumerReady(s.m, s.cs[t])
  }

  function Apply(s: State, a: Action, n: nat): State
    requires Fine(s, n) && Enabled(s, a)
  {
    match a
    case Produce(p) =>
      var (m, pr) := ProducerStep(s.m, s.ps[p], n, |s.cs|);
      State(m, s.ps[p := pr], s.cs)
    case Consume(t) =>
      var (m, k) := ConsumerStep(s.m, s.cs[t], t, n, |s.cs|);
      State(m, s.ps, s.cs[t := k])
  }

  ghost predicate Runs(s: State, actions: seq<Action>, s': State, n: nat)
    decreases |actions|
  {
    if actions == [] then s == s'
    else Fine(s, n) && Enabled(s, actions[0]) && Runs(Apply(s, actions[0], n), actions[1..], s', n)
  }

  ghost predicate Stuck(s: State) {
    forall a :: !Enabled(s, a)
  }

  // Producers with their values, consumers with the number of values each wants.
  function Initial(n: nat, data: seq<seq<int>>, wants: seq<nat>): State {
    State(Create(n, |wants|),
          seq(|data|, i requires 0 <= i < |data| => Producer(Outside, data[i])),
          seq(|wants|, j requires 0 <= j < |wants| => Consumer(Away, wants[j], [])))
  }
}
