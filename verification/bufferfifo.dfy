/**
 One producer and one consumer: the buffer is a first-in first-out queue of the deposited
 values, no position is overwritten before it is read or read before it is written, and the
 threads never block each other for good.
 */
module BufferFifo {
  import opened Counts
  import opened BufferSpec
  import opened BufferTokens

  // The position of the j-th deposit.
  function Slot(j: nat, n: nat): nat
    requires n > 0
  {
    j % n
  }

  lemma SlotFacts(j: nat, n: nat)
    requires n > 0
    ensures Slot(j, n) < n && Slot(j + n, n) == Slot(j, n) && Slot(j + 1, n) == Next(Slot(j, n), n)
  {
    var q, r := j / n, j % n;
    assert j + n == (q + 1) * n + r;
    ModUnique(j + n, n, q + 1, r);
    if r + 1 < n {
      assert j + 1 == q * n + (r + 1);
      ModUnique(j + 1, n, q, r + 1);
    } else {
      assert j + 1 == (q + 1) * n + 0;
      ModUnique(j + 1, n, q + 1, 0);
    }
  }

  lemma ModUnique(x: int, n: nat, q: int, r: int)
    requires n > 0 && x == q * n + r && 0 <= r < n
    ensures x % n == r
  {
    var d := q - x / n;
    assert x == (x / n) * n + x % n;
    assert d * n == x % n - r;
    assert (-d) * n == 0 - d * n;
    if d > 0 {
      Multiple(d, n);
    } else if d < 0 {
      Multiple(-d, n);
    }
  }

  lemma {:induction false} Multiple(d: int, n: nat)
    requires d > 0
    ensures d * n >= n
    decreases d
  {
    if d > 1 {
      Multiple(d - 1, n);
      assert d * n == (d - 1) * n + n;
    }
  }

  // Fewer than n apart means different positions.
  lemma SlotsDiffer(j: nat, k: nat, n: nat)
    requires j < k < j + n
    ensures Slot(j, n) != Slot(k, n)
  {
    var r := j % n;
    var d := k - j;
    if r + d < n {
      assert k == (j / n) * n + (r + d);
      ModUnique(k, n, j / n, r + d);
    } else {
      assert k == (j / n + 1) * n + (r + d - n);
      ModUnique(k, n, j / n + 1, r + d - n);
    }
  }

  // ----- the ring -----

  // Deposits `first` to `last` are in the buffer and unread, the other positions are free.
  ghost predicate Ring(m: Shared, n: nat, first: nat, last: nat, data: seq<int>) {
    && Sized(m, n, 1)
    && first <= last <= |data| && last <= first + n
    && m.nextWrite == Slot(last, n)
    && (forall j: nat :: first <= j < last ==>
          Slot(j, n) < n && m.pending[Slot(j, n)][0] == 1 && m.buffer[Slot(j, n)] == data[j])
    && (forall j: nat :: last <= j < first + n ==> Slot(j, n) < n && m.pending[Slot(j, n)][0] == 0)
  }

  ghost predicate ProducerPlace(m: Shared, p: Producer, n: nat, first: nat, last: nat, data: seq<int>)
    requires n > 0 && Sized(m, n, 1) && last <= |data|
  {
    && p.todo == data[last..]
    && (p.pc.Woken? || ActiveP(p) ==> last < first + n)
    && (p.pc.Storing? || p.pc.Stored? || p.pc.Finishing? ==> p.pc.at == Slot(last, n))
    && (p.pc.Stored? || p.pc.Finishing? ==> last < |data| && m.buffer[p.pc.at] == data[last])
    && (m.sW > 0 ==> last < first + n)
    && (m.waitForDeposit > 0 ==> last == first + n)
  }

  ghost predicate ConsumerPlace(m: Shared, k: Consumer, n: nat, first: nat, last: nat, data: seq<int>)
    requires n > 0 && Sized(m, n, 1) && first <= |data| && last <= |data|
  {
    && k.got == data[..first]
    && m.nextConsume[0] == Slot(if k.pc.Away? || k.pc.Looking? then first else first + 1, n)
    && (!k.pc.Away? && !k.pc.Looking? ==> k.pc.at == Slot(first, n))
    && (k.pc.Roused? || ReadsAt(k, Slot(first, n)) ==> first < last)
    && (k.pc.Fetched? || k.pc.Leaving? ==> first < last && k.pc.data == data[first])
    && (forall i :: 0 <= i < n && m.sR[i] > 0 ==> first < last)
    && (forall i :: 0 <= i < n && m.waitForRead[i] > 0 ==> first == last)
  }

  // The counters, for the two threads there are.
  ghost predicate Alone(m: Shared, p: Producer, k: Consumer, n: nat)
    requires n > 0 && Sized(m, n, 1)
  {
    && NonNegative(m)
    && m.waitForDeposit + m.sW == One(p.pc.Parked?)
    && m.nW == One(ActiveP(p))
    && forall i :: 0 <= i < n ==>
         && m.waitForRead[i] + m.sR[i] == One(k.pc.Asleep? && k.pc.at == i)
         && m.nR[i] == One(ReadsAt(k, i))
  }

  ghost predicate FifoInv(s: State, n: nat, data: seq<int>, want: nat) {
    && TokenInv(s, n)
    && |s.ps| == 1 && |s.cs| == 1
    && |s.ps[0].todo| <= |data|
    && s.cs[0].left + |s.cs[0].got| == want
    && var first, last := |s.cs[0].got|, |data| - |s.ps[0].todo|;
    && Ring(s.m, n, first, last, data)
    && ProducerPlace(s.m, s.ps[0], n, first, last, data)
    && ConsumerPlace(s.m, s.cs[0], n, first, last, data)
  }

  lemma CountersAlone(s: State, n: nat)
    requires TokenInv(s, n) && |s.ps| == 1 && |s.cs| == 1
    ensures Alone(s.m, s.ps[0], s.cs[0], n)
  {
    hide ReadsAt, ActiveP;
    assert s.ps[..0] == [] && s.cs[..0] == [];
    TotalOne(s.ps, ParkedP());
    TotalOne(s.ps, WritingP());
    forall i | 0 <= i < n
      ensures s.m.waitForRead[i] + s.m.sR[i] == AsleepC(i)(s.cs[0]) && s.m.nR[i] == ReadingC(i)(s.cs[0])
    {
      TotalOne(s.cs, AsleepC(i));
      TotalOne(s.cs, ReadingC(i));
    }
  }

  lemma TotalOne<T(!new)>(s: seq<T>, f: T -> int)
    requires |s| == 1
    ensures Total(s, f) == f(s[0])
  {
    assert s[..0] == [];
  }

  // ----- what SIGNAL does for two threads -----

  // With a writer active, or nobody waiting, the baton goes back to the entry.
  lemma SignalToEntry(m: Shared, n: nat)
    requires Sized(m, n, 1) && NonNegative(m)
    requires m.nW != 0 || forall i :: 0 <= i < n ==> m.waitForRead[i] == 0
    requires m.nW != 0 || m.waitForDeposit == 0 || m.pending[m.nextWrite][0] != 0
    ensures Signal(m) == m.(e := m.e + 1)
  {
    var i := FirstWaiting(m.waitForRead, 0);
  }

  // ----- deposits -----

  // The next position is free unless n values are waiting to be read.
  lemma SlotIsFree(m: Shared, n: nat, first: nat, last: nat, data: seq<int>)
    requires Ring(m, n, first, last, data)
    ensures Zero(m.pending[m.nextWrite]) <==> last < first + n
  {
    hide Slot;
    SlotFacts(first, n);
    if last == first + n {
      assert m.pending[Slot(first, n)][0] == 1;
    }
  }

  // Checking or woken to Indexing: the slot is free.
  lemma EnterKeeps(m: Shared, p: Producer, k: Consumer, n: nat, first: nat, last: nat, data: seq<int>)
    requires Ring(m, n, first, last, data) && Alone(m, p, k, n)
    requires ProducerPlace(m, p, n, first, last, data) && ConsumerPlace(m, k, n, first, last, data)
    requires ProducerFine(m, p) && (p.pc.Checking? || p.pc.Woken?)
    ensures var (m', p') := ProducerStep(m, p, n, 1);
      && Ring(m', n, first, last, data)
      && ProducerPlace(m', p', n, first, last, data) && ConsumerPlace(m', k, n, first, last, data)
  {
    hide Slot;
    SlotIsFree(m, n, first, last, data);
    if !(p.pc.Checking? && !Zero(m.pending[m.nextWrite])) {
      SignalToEntry(m.(nW := m.nW + 1), n);
    }
  }

  // The store touches no unread position.
  lemma StoreKeeps(m: Shared, p: Producer, n: nat, first: nat, last: nat, data: seq<int>)
    requires Ring(m, n, first, last, data) && ProducerPlace(m, p, n, first, last, data)
    requires p.pc.Storing? && p.todo != []
    ensures forall j: nat :: first <= j < last ==> Slot(j, n) != p.pc.at
    ensures var m' := m.(buffer := m.buffer[p.pc.at := p.todo[0]]);
      Ring(m', n, first, last, data) && m'.buffer[p.pc.at] == data[last]
  {
    hide Slot;
    forall j: nat | first <= j < last
      ensures Slot(j, n) != Slot(last, n)
    {
      SlotsDiffer(j, last, n);
    }
  }

  // Marking the stored value as deposited.
  lemma DepositRing(m: Shared, n: nat, first: nat, last: nat, data: seq<int>)
    requires Ring(m, n, first, last, data) && last < first + n && last < |data|
    requires m.buffer[m.nextWrite] == data[last]
    ensures Ring(m.(pending := m.pending[m.nextWrite := seq(1, j => 1)], nextWrite := Next(m.nextWrite, n)),
                 n, first, last + 1, data)
  {
    hide Slot;
    SlotFacts(last, n);
    SlotFacts(last + 1, n);
    var m' := m.(pending := m.pending[m.nextWrite := seq(1, j => 1)], nextWrite := Next(m.nextWrite, n));
    forall j: nat | first <= j < first + n && j != last
      ensures Slot(j, n) != Slot(last, n)
    {
      if j < last { SlotsDiffer(j, last, n); } else { SlotsDiffer(last, j, n); }
    }
  }

  // After the mark, a consumer asleep for want of this value is the one that is woken.
  lemma FinishKeeps(m: Shared, p: Producer, k: Consumer, n: nat, first: nat, last: nat, data: seq<int>)
    requires Ring(m, n, first, last, data) && Alone(m, p, k, n)
    requires ProducerPlace(m, p, n, first, last, data) && ConsumerPlace(m, k, n, first, last, data)
    requires p.pc.Finishing?
    ensures var (m', p') := ProducerStep(m, p, n, 1);
      && Ring(m', n, first, last + 1, data)
      && ProducerPlace(m', p', n, first, last + 1, data) && ConsumerPlace(m', k, n, first, last + 1, data)
  {
    hide Slot;
    var m1 := m.(nW := m.nW - 1, pending := m.pending[p.pc.at := seq(1, j => 1)], nextWrite := Next(m.nextWrite, n));
    DepositRing(m, n, first, last, data);
    assert Ring(m1, n, first, last + 1, data);
    var i := FirstWaiting(m.waitForRead, 0);
    assert data[last..][1..] == data[last + 1..];
    if i < n {
      assert k.pc.Asleep? && k.pc.at == i;
      assert Signal(m1) == m1.(waitForRead := m.waitForRead[i := m.waitForRead[i] - 1], sR := m.sR[i := m.sR[i] + 1]);
    } else {
      SignalToEntry(m1, n);
    }
  }

  // ----- consumption -----

  lemma LookKeeps(m: Shared, p: Producer, k: Consumer, n: nat, first: nat, last: nat, data: seq<int>)
    requires Ring(m, n, first, last, data) && Alone(m, p, k, n)
    requires ProducerPlace(m, p, n, first, last, data) && ConsumerPlace(m, k, n, first, last, data)
    requires ConsumerFine(m, k) && k.pc.Looking?
    ensures var (m', k') := ConsumerStep(m, k, 0, n, 1);
      && Ring(m', n, first, last, data)
      && ProducerPlace(m', p, n, first, last, data) && ConsumerPlace(m', k', n, first, last, data)
  {
    hide Slot, Signal;
    SlotFacts(first, n);
    var at := Slot(first, n);
    assert first < last ==> m.pending[at][0] == 1;
    assert first == last ==> m.pending[at][0] == 0;
    if first < last {
      SlotIsFree(m, n, first, last, data);
      SignalToEntry(m.(nR := m.nR[at := m.nR[at] + 1], nextConsume := m.nextConsume[0 := Next(at, n)]), n);
    }
  }

  // Woken to Reading: the value is there.
  lemma RouseKeeps(m: Shared, p: Producer, k: Consumer, n: nat, first: nat, last: nat, data: seq<int>)
    requires Ring(m, n, first, last, data) && Alone(m, p, k, n)
    requires ProducerPlace(m, p, n, first, last, data) && ConsumerPlace(m, k, n, first, last, data)
    requires ConsumerFine(m, k) && k.pc.Roused?
    ensures var (m', k') := ConsumerStep(m, k, 0, n, 1);
      && Ring(m', n, first, last, data)
      && ProducerPlace(m', p, n, first, last, data) && ConsumerPlace(m', k', n, first, last, data)
  {
    hide Slot, Signal;
    var at := Slot(first, n);
    SlotIsFree(m, n, first, last, data);
    SlotFacts(first, n);
    assert m.pending[at][0] == 1;
    SignalToEntry(m.(nR := m.nR[at := m.nR[at] + 1]), n);
  }

  lemma ConsumeRing(m: Shared, n: nat, first: nat, last: nat, data: seq<int>)
    requires Ring(m, n, first, last, data) && first < last
    ensures var at := Slot(first, n);
      at < n && Ring(m.(pending := m.pending[at := m.pending[at][0 := m.pending[at][0] - 1]]), n, first + 1, last, data)
  {
    hide Slot;
    SlotFacts(first, n);
    var at := Slot(first, n);
    forall j: nat | first < j < first + n
      ensures Slot(j, n) != at
    {
      SlotsDiffer(first, j, n);
    }
    assert m.pending[at][0] == 1;
    assert forall j: nat :: j == first + n ==> Slot(j, n) == at;
  }

  // Leaving frees the position, and a producer parked on it is the one that is woken.
  lemma LeaveKeeps(m: Shared, p: Producer, k: Consumer, n: nat, first: nat, last: nat, data: seq<int>)
    requires Ring(m, n, first, last, data) && Alone(m, p, k, n)
    requires ProducerPlace(m, p, n, first, last, data) && ConsumerPlace(m, k, n, first, last, data)
    requires ConsumerFine(m, k) && k.pc.Leaving?
    ensures var (m', k') := ConsumerStep(m, k, 0, n, 1);
      && Ring(m', n, first + 1, last, data)
      && ProducerPlace(m', p, n, first + 1, last, data) && ConsumerPlace(m', k', n, first + 1, last, data)
  {
    hide Slot;
    SlotFacts(first, n);
    var at := Slot(first, n);
    assert ReadsAt(k, at);
    ConsumeRing(m, n, first, last, data);
    var m1 := m.(nR := m.nR[at := m.nR[at] - 1], pending := m.pending[at := m.pending[at][0 := m.pending[at][0] - 1]]);
    assert Ring(m1, n, first + 1, last, data);
    assert data[..first] + [data[first]] == data[..first + 1];
    var i := FirstWaiting(m.waitForRead, 0);
    assert i == n;
    if m.waitForDeposit > 0 {
      assert m1.pending[m1.nextWrite][0] == 0 && m1.nR[m1.nextWrite] == 0 && m1.nW == 0;
      assert Signal(m1) == m1.(waitForDeposit := m.waitForDeposit - 1, sW := m.sW + 1);
    } else {
      SignalToEntry(m1, n);
    }
  }

  // ----- every step -----

  lemma ProduceKeeps(s: State, n: nat, data: seq<int>, want: nat)
    requires FifoInv(s, n, data, want) && Enabled(s, Produce(0))
    ensures FifoInv(Apply(s, Produce(0), n), n, data, want)
  {
    hide Slot, TokenInv, Signal;
    StepKeepsTokens(s, Produce(0), n);
    CountersAlone(s, n);
    assert Fine(s, n) by { TokensFine(s, n); }
    var m, p, k := s.m, s.ps[0], s.cs[0];
    var first, last := |k.got|, |data| - |p.todo|;
    match p.pc
    case Checking => EnterKeeps(m, p, k, n, first, last, data);
    case Woken => EnterKeeps(m, p, k, n, first, last, data);
    case Storing(at) =>
      StoreKeeps(m, p, n, first, last, data);
      assert data[last..][0] == data[last];
    case Finishing(at) => FinishKeeps(m, p, k, n, first, last, data);
    case _ =>
  }

  lemma TokensFine(s: State, n: nat)
    requires TokenInv(s, n)
    ensures Fine(s, n) && NonNegative(s.m)
  {
  }

  lemma ConsumeKeeps(s: State, n: nat, data: seq<int>, want: nat)
    requires FifoInv(s, n, data, want) && Enabled(s, Consume(0))
    ensures FifoInv(Apply(s, Consume(0), n), n, data, want)
  {
    hide Slot, TokenInv, Signal;
    StepKeepsTokens(s, Consume(0), n);
    CountersAlone(s, n);
    assert Fine(s, n) && NonNegative(s.m) by { TokensFine(s, n); }
    var m, p, k := s.m, s.ps[0], s.cs[0];
    var first, last := |k.got|, |data| - |p.todo|;
    SlotFacts(first, n);
    match k.pc
    case Looking => LookKeeps(m, p, k, n, first, last, data);
    case Roused(at) => RouseKeeps(m, p, k, n, first, last, data);
    case Leaving(at, d) => LeaveKeeps(m, p, k, n, first, last, data);
    case _ =>
  }

  // ----- runs -----

  lemma InitialFifo(n: nat, data: seq<int>, want: nat)
    requires n > 0
    ensures FifoInv(Initial(n, [data], [want]), n, data, want)
  {
    hide TokenInv, Slot;
    var s := Initial(n, [data], [want]);
    InitialTokens(n, [data], [want]);
    SlotZero(n);
    forall j: nat
      ensures Slot(j, n) < n
    {
      SlotFacts(j, n);
    }
  }

  lemma SlotZero(n: nat)
    requires n > 0
    ensures Slot(0, n) == 0
  {
  }

  lemma TwoThreads(s: State, n: nat, data: seq<int>, want: nat)
    requires FifoInv(s, n, data, want)
    ensures |s.ps| == 1 && |s.cs| == 1
  {
  }

  lemma {:induction false} RunKeepsFifo(s: State, actions: seq<Action>, s': State, n: nat, data: seq<int>, want: nat)
    requires FifoInv(s, n, data, want) && Runs(s, actions, s', n)
    ensures FifoInv(s', n, data, want)
    decreases |actions|
  {
    hide FifoInv, Apply;
    if actions != [] {
      TwoThreads(s, n, data, want);
      if actions[0] == Produce(0) {
        ProduceKeeps(s, n, data, want);
      } else {
        assert actions[0] == Consume(0);
        ConsumeKeeps(s, n, data, want);
      }
      RunKeepsFifo(Apply(s, actions[0], n), actions[1..], s', n, data, want);
    }
  }

  // `order` mixes the parts and keeps the order within each.
  ghost predicate Interleaves(order: seq<int>, parts: seq<seq<int>>)
    decreases |order|
  {
    if order == [] then forall i :: 0 <= i < |parts| ==> parts[i] == []
    else
      exists i :: 0 <= i < |parts| && parts[i] != [] && parts[i][|parts[i]| - 1] == order[|order| - 1]
                  && Interleaves(order[..|order| - 1], parts[i := parts[i][..|parts[i]| - 1]])
  }

  // The values of the deposits that have returned, producer by producer.
  ghost function Deposited(ps: seq<Producer>, data: seq<seq<int>>): seq<seq<int>>
    requires |ps| == |data| && forall i :: 0 <= i < |ps| ==> |ps[i].todo| <= |data[i]|
  {
    seq(|ps|, i requires 0 <= i < |ps| => data[i][..|data[i]| - |ps[i].todo|])
  }

  // The consumer has what was deposited first, in order; the other values wait in the buffer
  // in the positions that come next, and what it is reading or has read is the next of them.
  ghost predicate ReadsInOrder(m: Shared, k: Consumer, n: nat, order: seq<int>)
    requires n > 0
  {
    && k.got <= order && |order| <= |k.got| + n
    && (forall j: nat :: |k.got| <= j < |order| ==> Slot(j, n) < |m.buffer| && m.buffer[Slot(j, n)] == order[j])
    && (k.pc.Reading? ==> |k.got| < |order| && k.pc.at == Slot(|k.got|, n))
    && (k.pc.Fetched? || k.pc.Leaving? ==> |k.got| < |order| && k.pc.data == order[|k.got|])
  }

  // A store at `at` hits no value the consumer has yet to read.
  ghost predicate Spares(at: nat, k: Consumer, n: nat, order: seq<int>)
    requires n > 0
  {
    forall j: nat :: |k.got| <= j < |order| ==> Slot(j, n) != at
  }

  // A queue: the returned deposits have an order in which every consumer receives them.
  ghost predicate IsQueue(s: State, n: nat, data: seq<seq<int>>)
    requires n > 0
  {
    && |s.ps| == |data| && (forall i :: 0 <= i < |s.ps| ==> |s.ps[i].todo| <= |data[i]|)
    && exists order :: Interleaves(order, Deposited(s.ps, data)) && InOrder(s, n, order)
  }

  ghost predicate InOrder(s: State, n: nat, order: seq<int>)
    requires n > 0
  {
    && (forall t :: 0 <= t < |s.cs| ==> ReadsInOrder(s.m, s.cs[t], n, order))
    && (forall i, t :: 0 <= i < |s.ps| && 0 <= t < |s.cs| && s.ps[i].pc.Storing? ==>
          Spares(s.ps[i].pc.at, s.cs[t], n, order))
  }

  // In every reachable state of one producer and one consumer what was consumed is what was
  // deposited first, in order; the values still in the buffer come next; a store hits no
  // unread position and a read finds the value it is due.
  lemma Fifo(n: nat, data: seq<int>, want: nat, actions: seq<Action>, s: State)
    requires n > 0 && Runs(Initial(n, [data], [want]), actions, s, n)
    ensures IsQueue(s, n, [data])
  {
    hide TokenInv, Slot, IsQueue, Ring, ProducerPlace, ConsumerPlace, Initial;
    InitialFifo(n, data, want);
    RunKeepsFifo(Initial(n, [data], [want]), actions, s, n, data, want);
    QueueFromInv(s, n, data, want);
  }

  lemma QueueFromInv(s: State, n: nat, data: seq<int>, want: nat)
    requires n > 0 && FifoInv(s, n, data, want)
    ensures IsQueue(s, n, [data])
  {
    hide TokenInv, Slot, Interleaves, Signal;
    var p, k := s.ps[0], s.cs[0];
    var first, last := |k.got|, |data| - |p.todo|;
    assert Fine(s, n) by { TokensFine(s, n); }
    if p.pc.Storing? {
      StoreKeeps(s.m, p, n, first, last, data);
    }
    assert k.pc.Reading? ==> ReadsAt(k, Slot(first, n));
    var order := data[..last];
    assert data[..first] <= order;
    assert Deposited(s.ps, [data]) == [order];
    OneInterleaves(order);
    assert InOrder(s, n, order);
  }

  lemma {:induction false} OneInterleaves(order: seq<int>)
    ensures Interleaves(order, [order])
    decreases |order|
  {
    if order != [] {
      var fewer := order[..|order| - 1];
      OneInterleaves(fewer);
      assert [order][0 := fewer] == [fewer];
      assert [order][0] == order;
    }
  }

  // When neither thread can move, the producer has nothing left to deposit or the consumer
  // has all it wanted; they never wait for each other.
  lemma NeverBothBlocked(n: nat, data: seq<int>, want: nat, actions: seq<Action>, s: State)
    requires n > 0 && Runs(Initial(n, [data], [want]), actions, s, n) && Stuck(s)
    ensures |s.ps| == 1 && |s.cs| == 1
    ensures s.ps[0].todo == [] || s.cs[0].left == 0
    ensures |data| == want ==> s.ps[0].todo == [] && s.cs[0].left == 0 && s.cs[0].got == data
  {
    hide Slot;
    InitialFifo(n, data, want);
    RunKeepsFifo(Initial(n, [data], [want]), actions, s, n, data, want);
    CountersAlone(s, n);
    StuckTokens(s, n);
    var p, k := s.ps[0], s.cs[0];
    assert !Enabled(s, Produce(0)) && !Enabled(s, Consume(0));
    assert (p.pc.Outside? && p.todo == []) || (p.pc.Parked? && s.m.waitForDeposit > 0);
    assert (k.pc.Away? && k.left == 0) || (k.pc.Asleep? && s.m.waitForRead[k.pc.at] > 0);
    if |data| == want {
      assert data[..|data|] == data;
    }
  }

  // With both threads outside the region the token is at the entry or with a woken thread.
  lemma StuckTokens(s: State, n: nat)
    requires TokenInv(s, n) && |s.ps| == 1 && |s.cs| == 1 && Stuck(s)
    ensures s.m.e == 1 && s.m.sW == 0 && forall i :: 0 <= i < n ==> s.m.sR[i] == 0
  {
    var p, k := s.ps[0], s.cs[0];
    assert !Enabled(s, Produce(0)) && !Enabled(s, Consume(0));
    CountersAlone(s, n);
    TotalOne(s.ps, InsideP());
    TotalOne(s.cs, InsideC());
    assert !HoldsP(p) && !HoldsC(k);
    assert s.m.sW == 0;
    forall i | 0 <= i < n
      ensures Id()(s.m.sR[i]) == 0
    {
    }
    TotalZero(s.m.sR, Id());
  }

  // ----- termination, for any number of threads -----

  ghost function ProducerWork(p: Producer): int {
    10 * |p.todo| - match p.pc
                    case Outside => 0
                    case Checking => 1
                    case Parked => 2
                    case Woken => 3
                    case Indexing => 4
                    case Storing(_) => 5
                    case Stored(_) => 6
                    case Finishing(_) => 7
  }

  ghost function ConsumerWork(k: Consumer): int {
    10 * k.left - match k.pc
                  case Away => 0
                  case Looking => 1
                  case Asleep(_) => 2
                  case Roused(_) => 3
                  case Reading(_) => 4
                  case Fetched(_, _) => 5
                  case Leaving(_, _) => 6
  }

  ghost function WorkP(): Producer -> int { p => ProducerWork(p) }
  ghost function WorkC(): Consumer -> int { k => ConsumerWork(k) }

  ghost function Work(s: State): int {
    Total(s.ps, WorkP()) + Total(s.cs, WorkC())
  }

  lemma StepLowersWork(s: State, a: Action, n: nat)
    requires Fine(s, n) && Enabled(s, a)
    ensures Work(Apply(s, a, n)) < Work(s)
  {
    hide Signal;
    match a
    case Produce(i) =>
      var p' := ProducerStep(s.m, s.ps[i], n, |s.cs|).1;
      assert ProducerWork(p') < ProducerWork(s.ps[i]);
      TotalUpdate(s.ps, i, p', WorkP());
    case Consume(t) =>
      var k' := ConsumerStep(s.m, s.cs[t], t, n, |s.cs|).1;
      assert ConsumerWork(k') < ConsumerWork(s.cs[t]);
      TotalUpdate(s.cs, t, k', WorkC());
  }

  // Every run is finite.
  lemma {:induction false} RunIsFinite(s: State, actions: seq<Action>, s': State, n: nat)
    requires TokenInv(s, n) && Runs(s, actions, s', n)
    ensures |actions| <= Work(s) && Work(s) >= 0
    decreases |actions|
  {
    hide Apply, Counters, NonNegative, Tokens;
    forall i | 0 <= i < |s.ps| ensures WorkP()(s.ps[i]) >= 0 {
      assert ProducerFine(s.m, s.ps[i]);
    }
    forall i | 0 <= i < |s.cs| ensures WorkC()(s.cs[i]) >= 0 {
      assert ConsumerFine(s.m, s.cs[i]);
    }
    TotalNonNegative(s.ps, WorkP());
    TotalNonNegative(s.cs, WorkC());
    if actions != [] {
      StepLowersWork(s, actions[0], n);
      StepKeepsTokens(s, actions[0], n);
      RunIsFinite(Apply(s, actions[0], n), actions[1..], s', n);
    }
  }
}
