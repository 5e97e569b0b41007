/**
 The marks of every consumer: what a deposit waits for and leaves behind, what SIGNAL looks at,
 and what one producer's store finds in any run with any number of consumers.
 */
module BufferMarks {
  import opened BufferFifo
  import opened BufferSpec
  import opened BufferTokens
  import opened Counts

  // ----- steps -----

  // A deposit parks as long as any consumer has the next position still to read, and enters
  // as a writer when none has.
  lemma ParksIffMarked(m: Shared, p: Producer, n: nat, c: nat)
    requires Sized(m, n, c) && ProducerFine(m, p) && p.pc.Checking?
    ensures ProducerStep(m, p, n, c).1.pc.Parked? <==> exists j :: 0 <= j < c && m.pending[m.nextWrite][j] != 0
    ensures ProducerStep(m, p, n, c).1.pc.Indexing? <==> forall j :: 0 <= j < c ==> m.pending[m.nextWrite][j] == 0
    ensures var m' := ProducerStep(m, p, n, c).0;
            m'.buffer == m.buffer && m'.pending == m.pending && m'.nextWrite == m.nextWrite
  {
  }

  // After a deposit every consumer has its position to read, and no other mark has changed.
  lemma DepositMarksAll(m: Shared, p: Producer, n: nat, c: nat)
    requires Sized(m, n, c) && ProducerFine(m, p) && p.pc.Finishing?
    ensures var m' := ProducerStep(m, p, n, c).0;
            && |m'.pending| == n && m'.buffer == m.buffer
            && (forall j :: 0 <= j < c ==> |m'.pending[p.pc.at]| == c && m'.pending[p.pc.at][j] == 1)
            && (forall i :: 0 <= i < n && i != p.pc.at ==> m'.pending[i] == m.pending[i])
  {
  }

  // SIGNAL wakes one reader, the first one waiting, iff no writer is active; failing that one
  // writer iff no writer is active, nobody reads the next position and no consumer has it
  // still to read; and else opens the entry.
  lemma SignalGives(m: Shared, n: nat, c: nat)
    requires Sized(m, n, c) && NonNegative(m) && c > 0
    ensures
      var m' := Signal(m);
      var reader, writer := m.nW == 0 && exists i :: 0 <= i < n && m.waitForRead[i] > 0,
                            m.nW == 0 && m.nR[m.nextWrite] == 0 && m.waitForDeposit > 0
                            && forall j :: 0 <= j < c ==> m.pending[m.nextWrite][j] == 0;
      && (reader ==> exists i :: 0 <= i < n && m.waitForRead[i] > 0
                                 && (forall k :: 0 <= k < i ==> m.waitForRead[k] == 0)
                                 && m' == m.(waitForRead := m.waitForRead[i := m.waitForRead[i] - 1],
                                             sR := m.sR[i := m.sR[i] + 1]))
      && (!reader && writer ==> m' == m.(waitForDeposit := m.waitForDeposit - 1, sW := m.sW + 1))
      && (!reader && !writer ==> m' == m.(e := m.e + 1))
  {
    var k := FirstWaiting(m.waitForRead, 0);
  }

  // A consumer sleeps iff its own mark is clear, moves its own index only, and on leaving
  // clears its own mark only.
  lemma ConsumerTouchesOwn(m: Shared, k: Consumer, t: nat, n: nat, c: nat)
    requires Sized(m, n, c) && NonNegative(m) && ConsumerFine(m, k) && t < c && ConsumerReady(m, k)
    ensures
      var (m', k') := ConsumerStep(m, k, t, n, c);
      && Sized(m', n, c) && m'.buffer == m.buffer && m'.nextWrite == m.nextWrite
      && (forall j :: 0 <= j < c && j != t ==> m'.nextConsume[j] == m.nextConsume[j])
      && (forall i, j :: 0 <= i < n && 0 <= j < c && !(k.pc.Leaving? && i == k.pc.at && j == t) ==>
            m'.pending[i][j] == m.pending[i][j])
      && (k.pc.Leaving? ==> m'.pending[k.pc.at][t] == m.pending[k.pc.at][t] - 1)
      && (k.pc.Looking? ==>
            && k'.pc == (if m.pending[m.nextConsume[t]][t] == 0 then Asleep(m.nextConsume[t])
                         else Reading(m.nextConsume[t]))
            && m'.nextConsume[t] == if m.nextConsume[t] == n - 1 then 0 else m.nextConsume[t] + 1)
      && (!k.pc.Looking? ==> m'.nextConsume[t] == m.nextConsume[t])
      && (k.pc.Reading? ==> k'.pc == Fetched(k.pc.at, m.buffer[k.pc.at]))
  {
    hide Signal;
    match k.pc
    case Looking =>
      var at := m.nextConsume[t];
      SignalFacts(m.(nextConsume := m.nextConsume[t := Next(at, n)], nR := m.nR[at := m.nR[at] + 1]), n, c);
    case Roused(at) =>
      SignalFacts(m.(nR := m.nR[at := m.nR[at] + 1]), n, c);
    case Leaving(at, data) =>
      SignalFacts(m.(nR := m.nR[at := m.nR[at] - 1],
                     pending := m.pending[at := m.pending[at][t := m.pending[at][t] - 1]]), n, c);
    case _ =>
  }

  // ----- one producer, any number of consumers -----

  // No consumer has the next position still to read.
  ghost predicate NoneMarked(m: Shared) {
    m.nextWrite < |m.pending| && forall j :: 0 <= j < |m.pending[m.nextWrite]| ==> m.pending[m.nextWrite][j] <= 0
  }

  // The buffer holds the last n deposits; the oldest gives way to the value being stored.
  ghost predicate HoldsLast(m: Shared, p: Producer, n: nat, last: nat, data: seq<int>)
    requires n > 0
  {
    && last <= |data|
    && (p.pc.Stored? || p.pc.Finishing? ==>
          last < |data| && p.pc.at < |m.buffer| && m.buffer[p.pc.at] == data[last])
    && forall j: nat :: j < last <= j + n && !(last == j + n && (p.pc.Stored? || p.pc.Finishing?)) ==>
         Slot(j, n) < |m.buffer| && m.buffer[Slot(j, n)] == data[j]
  }

  ghost predicate OneWriter(s: State, n: nat, data: seq<int>) {
    && TokenInv(s, n) && n > 0
    && |s.ps| == 1 && |s.ps[0].todo| <= |data|
    && var p, last := s.ps[0], |data| - |s.ps[0].todo|;
    && p.todo == data[last..] && s.m.nextWrite == Slot(last, n)
    && (p.pc.Storing? || p.pc.Stored? || p.pc.Finishing? ==> p.pc.at == s.m.nextWrite)
    && (s.m.sW > 0 || p.pc.Woken? || ActiveP(p) ==> NoneMarked(s.m))
    && HoldsLast(s.m, p, n, last, data)
  }

  lemma ProducerAlone(s: State, n: nat)
    requires TokenInv(s, n) && |s.ps| == 1
    ensures Fine(s, n) && NonNegative(s.m)
    ensures s.m.waitForDeposit + s.m.sW == One(s.ps[0].pc.Parked?) && s.m.nW == One(ActiveP(s.ps[0]))
  {
    TotalOne(s.ps, ParkedP());
    TotalOne(s.ps, WritingP());
  }

  lemma ProduceKeepsOne(s: State, n: nat, data: seq<int>)
    requires OneWriter(s, n, data) && Enabled(s, Produce(0))
    ensures OneWriter(Apply(s, Produce(0), n), n, data)
  {
    hide Slot, TokenInv, Signal, HoldsLast;
    StepKeepsTokens(s, Produce(0), n);
    ProducerAlone(s, n);
    var m, p, c := s.m, s.ps[0], |s.cs|;
    var last: nat := |data| - |p.todo|;
    var (m', p') := ProducerStep(m, p, n, c);
    HoldsSame(m, m', p, p', n, last, data);
    SlotFacts(last, n);
    match p.pc
    case Checking =>
      if Zero(m.pending[m.nextWrite]) { WriterSignal(m.(nW := m.nW + 1), n, c); }
    case Woken => WriterSignal(m.(nW := m.nW + 1), n, c);
    case Storing(at) =>
      assert p.todo[0] == data[last];
      StoreHolds(m, p, n, last, data);
    case Finishing(at) =>
      FinishHolds(m, p, n, c, last, data);
      SignalFacts(m.(nW := m.nW - 1, pending := m.pending[at := seq(c, j => 1)],
                     nextWrite := Next(m.nextWrite, n)), n, c);
      assert data[last..][1..] == data[last + 1..];
    case _ =>
  }

  lemma HoldsSame(m: Shared, m': Shared, p: Producer, p': Producer, n: nat, last: nat, data: seq<int>)
    requires n > 0 && HoldsLast(m, p, n, last, data)
    ensures m'.buffer == m.buffer && !p.pc.Stored? && !p.pc.Finishing? && !p'.pc.Stored? && !p'.pc.Finishing? ==>
              HoldsLast(m', p', n, last, data)
    ensures m'.buffer == m.buffer && p.pc.Stored? && p'.pc == Finishing(p.pc.at) ==>
              HoldsLast(m', p', n, last, data)
  {
  }

  // With a writer active nobody is woken.
  lemma WriterSignal(m: Shared, n: nat, c: nat)
    requires Sized(m, n, c) && m.nW != 0
    ensures Signal(m) == m.(e := m.e + 1)
  {
  }

  lemma StoreHolds(m: Shared, p: Producer, n: nat, last: nat, data: seq<int>)
    requires 0 < n == |m.buffer| && HoldsLast(m, p, n, last, data) && last < |data|
    requires p.pc.Storing? && p.pc.at == Slot(last, n) < n && p.todo != [] && p.todo[0] == data[last]
    ensures HoldsLast(m.(buffer := m.buffer[p.pc.at := p.todo[0]]), p.(pc := Stored(p.pc.at)), n, last, data)
  {
    hide Slot;
    forall j: nat | j < last < j + n
      ensures Slot(j, n) != p.pc.at
    {
      SlotsDiffer(j, last, n);
    }
  }

  lemma FinishHolds(m: Shared, p: Producer, n: nat, c: nat, last: nat, data: seq<int>)
    requires n > 0 && HoldsLast(m, p, n, last, data) && p.pc.Finishing? && p.pc.at == Slot(last, n)
    ensures last < |data|
    ensures forall m': Shared, todo :: m'.buffer == m.buffer ==>
              HoldsLast(m', Producer(Outside, todo), n, last + 1, data)
  {
    hide Slot;
  }

  lemma ConsumeKeepsOne(s: State, t: nat, n: nat, data: seq<int>)
    requires OneWriter(s, n, data) && Enabled(s, Consume(t))
    ensures OneWriter(Apply(s, Consume(t), n), n, data)
  {
    hide Slot, TokenInv, Signal;
    StepKeepsTokens(s, Consume(t), n);
    ProducerAlone(s, n);
    ConsumerTouchesOwn(s.m, s.cs[t], t, n, |s.cs|);
    ConsumerWakes(s.m, s.cs[t], t, n, |s.cs|);
  }

  // A consumer's step wakes a writer only when no mark is left at the next position.
  lemma ConsumerWakes(m: Shared, k: Consumer, t: nat, n: nat, c: nat)
    requires Sized(m, n, c) && NonNegative(m) && ConsumerFine(m, k) && t < c && ConsumerReady(m, k)
    ensures var m' := ConsumerStep(m, k, t, n, c).0;
            m'.sW > m.sW ==> NoneMarked(m')
    ensures ConsumerStep(m, k, t, n, c).0.sW >= m.sW
  {
    hide FirstWaiting;
  }

  lemma InitialOne(n: nat, data: seq<int>, wants: seq<nat>)
    requires n > 0
    ensures OneWriter(Initial(n, [data], wants), n, data)
  {
    hide TokenInv, Slot;
    InitialTokens(n, [data], wants);
    SlotZero(n);
  }

  lemma {:induction false} RunKeepsOne(s: State, actions: seq<Action>, s': State, n: nat, data: seq<int>)
    requires OneWriter(s, n, data) && Runs(s, actions, s', n)
    ensures OneWriter(s', n, data)
    decreases |actions|
  {
    if actions != [] {
      match actions[0] {
        case Produce(i) =>
          assert i == 0;
          ProduceKeepsOne(s, n, data);
        case Consume(t) =>
          ConsumeKeepsOne(s, t, n, data);
      }
      hide *;
      RunKeepsOne(Apply(s, actions[0], n), actions[1..], s', n, data);
    }
  }

  // With one producer and any number of consumers, in every reachable state: a store finds no
  // consumer that has its position still to read; the deposits go round the ring in order; and
  // the buffer holds the last n of them, but for the one that a store has just replaced.
  lemma StoresOnlyWhatAllHaveRead(n: nat, data: seq<int>, wants: seq<nat>, actions: seq<Action>, s: State)
    requires n > 0 && Runs(Initial(n, [data], wants), actions, s, n)
    ensures |s.ps| == 1 && |s.ps[0].todo| <= |data| && |s.m.pending| == n && |s.cs| == |wants|
    ensures forall i :: 0 <= i < n ==> |s.m.pending[i]| == |wants|
    ensures s.ps[0].pc.Storing? ==>
              && s.ps[0].pc.at == Slot(|data| - |s.ps[0].todo|, n) < n
              && forall j :: 0 <= j < |wants| ==> s.m.pending[s.ps[0].pc.at][j] <= 0
    ensures HoldsLast(s.m, s.ps[0], n, |data| - |s.ps[0].todo|, data)
  {
    hide Slot, Runs, HoldsLast, Apply, Counters, Initial, Tokens;
    InitialOne(n, data, wants);
    RunKeepsOne(Initial(n, [data], wants), actions, s, n, data);
    RunKeepsCount(Initial(n, [data], wants), actions, s, n);
    InitialCount(n, data, wants);
  }

  lemma InitialCount(n: nat, data: seq<int>, wants: seq<nat>)
    ensures |Initial(n, [data], wants).cs| == |wants|
  {
  }

  lemma {:induction false} RunKeepsCount(s: State, actions: seq<Action>, s': State, n: nat)
    requires Runs(s, actions, s', n)
    ensures |s'.ps| == |s.ps| && |s'.cs| == |s.cs|
    decreases |actions|
  {
    hide ProducerStep, ConsumerStep;
    if actions != [] {
      RunKeepsCount(Apply(s, actions[0], n), actions[1..], s', n);
    }
  }

  // ----- any number of threads: round the ring -----

  // How many positions the consumer has turned to.
  ghost function Turns(k: Consumer): nat {
    |k.got| + if k.pc.Away? || k.pc.Looking? then 0 else 1
  }

  ghost function Todo(): Producer -> int { (p: Producer) => |p.todo| }

  // The write index has moved on once a deposit, every consumer's index once a turn, and a
  // consumer past its look is at the position of its turn.
  ghost predicate RoundTheRing(s: State, n: nat, total: int)
    requires n > 0
  {
    && |s.m.nextConsume| == |s.cs|
    && total >= Total(s.ps, Todo())
    && s.m.nextWrite == Slot(total - Total(s.ps, Todo()), n)
    && forall t :: 0 <= t < |s.cs| ==>
         && s.m.nextConsume[t] == Slot(Turns(s.cs[t]), n)
         && (!s.cs[t].pc.Away? && !s.cs[t].pc.Looking? ==> s.cs[t].pc.at == Slot(|s.cs[t].got|, n))
  }

  lemma StepGoesRound(s: State, a: Action, n: nat, total: int)
    requires TokenInv(s, n) && n > 0 && RoundTheRing(s, n, total) && Enabled(s, a)
    ensures RoundTheRing(Apply(s, a, n), n, total)
  {
    hide Slot, Signal, Counters, Tokens, ConsumerStep;
    match a
    case Produce(i) =>
      var p' := ProducerStep(s.m, s.ps[i], n, |s.cs|).1;
      TotalUpdate(s.ps, i, p', Todo());
      SlotFacts(total - Total(s.ps, Todo()), n);
      ProducerIndex(s.m, s.ps[i], n, |s.cs|);
    case Consume(t) =>
      ConsumerTouchesOwn(s.m, s.cs[t], t, n, |s.cs|);
      ConsumerTurns(s.m, s.cs[t], t, n, |s.cs|);
      SlotFacts(|s.cs[t].got|, n);
  }

  lemma ProducerIndex(m: Shared, p: Producer, n: nat, c: nat)
    requires Sized(m, n, c) && NonNegative(m) && ProducerFine(m, p)
    ensures var (m', p') := ProducerStep(m, p, n, c);
            && m'.nextConsume == m.nextConsume
            && m'.nextWrite == (if p.pc.Finishing? then Next(m.nextWrite, n) else m.nextWrite)
            && |p'.todo| == |p.todo| - if p.pc.Finishing? then 1 else 0
  {
    hide FirstWaiting;
  }

  lemma ConsumerTurns(m: Shared, k: Consumer, t: nat, n: nat, c: nat)
    requires Sized(m, n, c) && ConsumerFine(m, k) && t < c
    ensures var k' := ConsumerStep(m, k, t, n, c).1;
            && Turns(k') == Turns(k) + (if k.pc.Looking? then 1 else 0)
            && |k'.got| == |k.got| + (if k.pc.Leaving? then 1 else 0)
            && (!k'.pc.Away? && !k'.pc.Looking? ==> k'.pc.at == if k.pc.Looking? then m.nextConsume[t] else k.pc.at)
  {
    hide Signal;
  }

  lemma {:induction false} RunGoesRound(s: State, actions: seq<Action>, s': State, n: nat, total: int)
    requires TokenInv(s, n) && n > 0 && RoundTheRing(s, n, total) && Runs(s, actions, s', n)
    ensures RoundTheRing(s', n, total)
    decreases |actions|
  {
    hide TokenInv, RoundTheRing, Apply;
    if actions != [] {
      StepKeepsTokens(s, actions[0], n);
      StepGoesRound(s, actions[0], n, total);
      RunGoesRound(Apply(s, actions[0], n), actions[1..], s', n, total);
    }
  }

  // In every reachable state of any number of threads the writers and every consumer have gone
  // round the ring in order, one position at a time.
  lemma AllGoRound(n: nat, data: seq<seq<int>>, wants: seq<nat>, actions: seq<Action>, s: State)
    requires n > 0 && Runs(Initial(n, data, wants), actions, s, n)
    ensures RoundTheRing(s, n, Total(Initial(n, data, wants).ps, Todo()))
  {
    hide TokenInv, Runs, Slot;
    var s0 := Initial(n, data, wants);
    InitialTokens(n, data, wants);
    SlotZero(n);
    RunGoesRound(s0, actions, s, n, Total(s0.ps, Todo()));
  }
}
