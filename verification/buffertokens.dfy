/**
 What holds for any number of producers and consumers: exactly one token is in the entry
 semaphore, in a queue semaphore or in the hands of the thread in the critical region, and
 the wait and activity counters count what they say.
 */
module BufferTokens {
  import opened Counts
  import opened BufferSpec

  ghost predicate HoldsP(p: Producer) { p.pc.Checking? || p.pc.Woken? || p.pc.Finishing? }
  ghost predicate HoldsC(k: Consumer) { k.pc.Looking? || k.pc.Roused? || k.pc.Leaving? }

  ghost predicate ActiveP(p: Producer) {
    p.pc.Indexing? || p.pc.Storing? || p.pc.Stored? || p.pc.Finishing?
  }

  ghost predicate ReadsAt(k: Consumer, i: nat) {
    (k.pc.Reading? || k.pc.Fetched? || k.pc.Leaving?) && k.pc.at == i
  }

  function One(b: bool): int { if b then 1 else 0 }

  ghost function InsideP(): Producer -> int { (p: Producer) => One(HoldsP(p)) }
  ghost function InsideC(): Consumer -> int { (k: Consumer) => One(HoldsC(k)) }
  ghost function ParkedP(): Producer -> int { (p: Producer) => One(p.pc.Parked?) }
  ghost function WritingP(): Producer -> int { (p: Producer) => One(ActiveP(p)) }
  ghost function AsleepC(i: nat): Consumer -> int { (k: Consumer) => One(k.pc.Asleep? && k.pc.at == i) }
  ghost function ReadingC(i: nat): Consumer -> int { (k: Consumer) => One(ReadsAt(k, i)) }
  ghost function Id(): int -> int { x => x }

  // Tokens in semaphores.
  ghost function Tokens(m: Shared): int {
    m.e + m.sW + Total(m.sR, Id())
  }

  ghost predicate Counters(s: State) {
    && s.m.waitForDeposit + s.m.sW == Total(s.ps, ParkedP())
    && s.m.nW == Total(s.ps, WritingP())
    && (forall i :: 0 <= i < |s.m.sR| && i < |s.m.waitForRead| && i < |s.m.nR| ==>
          && s.m.waitForRead[i] + s.m.sR[i] == Total(s.cs, AsleepC(i))
          && s.m.nR[i] == Total(s.cs, ReadingC(i)))
  }

  ghost predicate NonNegative(m: Shared) {
    && m.e >= 0 && m.sW >= 0 && m.waitForDeposit >= 0
    && (forall i :: 0 <= i < |m.sR| ==> m.sR[i] >= 0)
    && (forall i :: 0 <= i < |m.waitForRead| ==> m.waitForRead[i] >= 0)
  }

  ghost predicate TokenInv(s: State, n: nat) {
    && Fine(s, n)
    && NonNegative(s.m)
    && Tokens(s.m) + Total(s.ps, InsideP()) + Total(s.cs, InsideC()) == 1
    && Counters(s)
  }

  // SIGNAL puts exactly one token back and moves a waiter from its counter to its semaphore.
  lemma SignalFacts(m: Shared, n: nat, c: nat)
    requires Sized(m, n, c) && NonNegative(m)
    ensures var m' := Signal(m);
      && Sized(m', n, c) && NonNegative(m') && Tokens(m') == Tokens(m) + 1
      && m'.waitForDeposit + m'.sW == m.waitForDeposit + m.sW
      && m'.nW == m.nW && m'.nR == m.nR
      && (forall i :: 0 <= i < n ==> m'.waitForRead[i] + m'.sR[i] == m.waitForRead[i] + m.sR[i])
      && m'.buffer == m.buffer && m'.pending == m.pending && m'.nextWrite == m.nextWrite
      && m'.nextConsume == m.nextConsume
  {
    var i := FirstWaiting(m.waitForRead, 0);
    if i < n {
      TotalUpdate(m.sR, i, m.sR[i] + 1, Id());
    }
  }

  // What a producer's step does to the tokens and counters.
  ghost predicate ProducerMoves(m: Shared, p: Producer, m': Shared, p': Producer, n: nat, c: nat) {
    && Sized(m, n, c) && Sized(m', n, c) && NonNegative(m') && ProducerFine(m', p')
    && Tokens(m') + One(HoldsP(p')) == Tokens(m) + One(HoldsP(p))
    && m'.waitForDeposit + m'.sW - One(p'.pc.Parked?) == m.waitForDeposit + m.sW - One(p.pc.Parked?)
    && m'.nW - One(ActiveP(p')) == m.nW - One(ActiveP(p))
    && m'.nR == m.nR
    && (forall i :: 0 <= i < n ==> m'.waitForRead[i] + m'.sR[i] == m.waitForRead[i] + m.sR[i])
  }

  lemma EnteringMoves(m: Shared, p: Producer, n: nat, c: nat)
    requires Sized(m, n, c) && NonNegative(m) && ProducerFine(m, p) && ProducerReady(m, p)
    requires p.pc.Checking? || p.pc.Woken?
    ensures var (m', p') := ProducerStep(m, p, n, c); ProducerMoves(m, p, m', p', n, c)
  {
    hide Signal;
    SignalFacts(m.(nW := m.nW + 1), n, c);
  }

  lemma FinishingMoves(m: Shared, p: Producer, n: nat, c: nat)
    requires Sized(m, n, c) && NonNegative(m) && ProducerFine(m, p) && ProducerReady(m, p)
    requires p.pc.Finishing?
    ensures var (m', p') := ProducerStep(m, p, n, c); ProducerMoves(m, p, m', p', n, c)
  {
    hide Signal;
    var at := p.pc.at;
    SignalFacts(m.(nW := m.nW - 1, pending := m.pending[at := seq(c, j => 1)], nextWrite := Next(m.nextWrite, n)), n,
                c);
  }

  lemma ProducerStepMoves(m: Shared, p: Producer, n: nat, c: nat)
    requires Sized(m, n, c) && NonNegative(m) && ProducerFine(m, p) && ProducerReady(m, p)
    ensures var (m', p') := ProducerStep(m, p, n, c); ProducerMoves(m, p, m', p', n, c)
  {
    match p.pc
    case Checking => EnteringMoves(m, p, n, c);
    case Woken => EnteringMoves(m, p, n, c);
    case Finishing(_) => FinishingMoves(m, p, n, c);
    case _ => hide Signal;
  }

  ghost predicate ConsumerMoves(m: Shared, k: Consumer, m': Shared, k': Consumer, n: nat, c: nat) {
    && Sized(m, n, c) && Sized(m', n, c) && NonNegative(m') && ConsumerFine(m', k')
    && Tokens(m') + One(HoldsC(k')) == Tokens(m) + One(HoldsC(k))
    && m'.waitForDeposit + m'.sW == m.waitForDeposit + m.sW
    && m'.nW == m.nW
    && (forall i :: 0 <= i < n ==>
          && m'.waitForRead[i] + m'.sR[i] - One(k'.pc.Asleep? && k'.pc.at == i)
             == m.waitForRead[i] + m.sR[i] - One(k.pc.Asleep? && k.pc.at == i)
          && m'.nR[i] - One(ReadsAt(k', i)) == m.nR[i] - One(ReadsAt(k, i)))
  }

  lemma LookingMoves(m: Shared, k: Consumer, t: nat, n: nat, c: nat)
    requires Sized(m, n, c) && NonNegative(m) && ConsumerFine(m, k) && t < c && k.pc.Looking?
    ensures var (m', k') := ConsumerStep(m, k, t, n, c); ConsumerMoves(m, k, m', k', n, c)
  {
    hide Signal;
    var at := m.nextConsume[t];
    SignalFacts(m.(nextConsume := m.nextConsume[t := Next(at, n)], nR := m.nR[at := m.nR[at] + 1]), n, c);
  }

  lemma RousedMoves(m: Shared, k: Consumer, t: nat, n: nat, c: nat)
    requires Sized(m, n, c) && NonNegative(m) && ConsumerFine(m, k) && t < c && k.pc.Roused?
    ensures var (m', k') := ConsumerStep(m, k, t, n, c); ConsumerMoves(m, k, m', k', n, c)
  {
    hide Signal;
    SignalFacts(m.(nR := m.nR[k.pc.at := m.nR[k.pc.at] + 1]), n, c);
  }

  lemma LeavingMoves(m: Shared, k: Consumer, t: nat, n: nat, c: nat)
    requires Sized(m, n, c) && NonNegative(m) && ConsumerFine(m, k) && t < c && k.pc.Leaving?
    ensures var (m', k') := ConsumerStep(m, k, t, n, c); ConsumerMoves(m, k, m', k', n, c)
  {
    hide Signal;
    var at := k.pc.at;
    SignalFacts(m.(nR := m.nR[at := m.nR[at] - 1],
                   pending := m.pending[at := m.pending[at][t := m.pending[at][t] - 1]]), n, c);
  }

  lemma ConsumerStepMoves(m: Shared, k: Consumer, t: nat, n: nat, c: nat)
    requires Sized(m, n, c) && NonNegative(m) && ConsumerFine(m, k) && t < c && ConsumerReady(m, k)
    ensures var (m', k') := ConsumerStep(m, k, t, n, c); ConsumerMoves(m, k, m', k', n, c)
  {
    hide Signal;
    match k.pc
    case Looking => LookingMoves(m, k, t, n, c);
    case Asleep(at) => TotalUpdate(m.sR, at, m.sR[at] - 1, Id());
    case Roused(at) => RousedMoves(m, k, t, n, c);
    case Leaving(at, data) => LeavingMoves(m, k, t, n, c);
    case _ =>
  }

  // Every step of every thread keeps the token and the counters.
  lemma StepKeepsTokens(s: State, a: Action, n: nat)
    requires TokenInv(s, n) && Enabled(s, a)
    ensures TokenInv(Apply(s, a, n), n)
  {
    hide HoldsP, HoldsC, ActiveP, ReadsAt, ProducerStep, ConsumerStep, Tokens, NonNegative;
    match a
    case Produce(i) =>
      ProducerStepMoves(s.m, s.ps[i], n, |s.cs|);
      var (m', p') := ProducerStep(s.m, s.ps[i], n, |s.cs|);
      TotalUpdate(s.ps, i, p', InsideP());
      TotalUpdate(s.ps, i, p', ParkedP());
      TotalUpdate(s.ps, i, p', WritingP());
    case Consume(t) =>
      ConsumerStepMoves(s.m, s.cs[t], t, n, |s.cs|);
      var (m', k') := ConsumerStep(s.m, s.cs[t], t, n, |s.cs|);
      TotalUpdate(s.cs, t, k', InsideC());
      forall i | 0 <= i < n
        ensures Total(s.cs[t := k'], AsleepC(i)) ==
                Total(s.cs, AsleepC(i)) - AsleepC(i)(s.cs[t]) + AsleepC(i)(k')
        ensures Total(s.cs[t := k'], ReadingC(i)) ==
                Total(s.cs, ReadingC(i)) - ReadingC(i)(s.cs[t]) + ReadingC(i)(k')
      {
        TotalUpdate(s.cs, t, k', AsleepC(i));
        TotalUpdate(s.cs, t, k', ReadingC(i));
      }
  }

  lemma InitialTokens(n: nat, data: seq<seq<int>>, wants: seq<nat>)
    requires n > 0
    ensures TokenInv(Initial(n, data, wants), n)
  {
    var s := Initial(n, data, wants);
    TotalZero(s.m.sR, Id());
    TotalZero(s.ps, InsideP());
    TotalZero(s.cs, InsideC());
    TotalZero(s.ps, ParkedP());
    TotalZero(s.ps, WritingP());
    forall i | 0 <= i < n
      ensures Total(s.cs, AsleepC(i)) == 0 && Total(s.cs, ReadingC(i)) == 0
    {
      TotalZero(s.cs, AsleepC(i));
      TotalZero(s.cs, ReadingC(i));
    }
  }

  // The split binary semaphore invariant, in every state any number of threads can reach.
  lemma {:induction false} RunKeepsTokens(s: State, actions: seq<Action>, s': State, n: nat)
    requires TokenInv(s, n) && Runs(s, actions, s', n)
    ensures TokenInv(s', n)
    decreases |actions|
  {
    hide TokenInv, Apply;
    if actions != [] {
      StepKeepsTokens(s, actions[0], n);
      RunKeepsTokens(Apply(s, actions[0], n), actions[1..], s', n);
    }
  }

  // Never two threads in the critical region.
  lemma MutualExclusion(s: State, n: nat)
    requires TokenInv(s, n)
    ensures forall i, j :: 0 <= i < j < |s.ps| ==> !(HoldsP(s.ps[i]) && HoldsP(s.ps[j]))
    ensures forall i, j :: 0 <= i < |s.ps| && 0 <= j < |s.cs| ==> !(HoldsP(s.ps[i]) && HoldsC(s.cs[j]))
    ensures forall i, j :: 0 <= i < j < |s.cs| ==> !(HoldsC(s.cs[i]) && HoldsC(s.cs[j]))
  {
    TotalNonNegative(s.m.sR, Id());
    TotalNonNegative(s.ps, InsideP());
    TotalNonNegative(s.cs, InsideC());
    forall i, j | 0 <= i < j < |s.ps|
      ensures !(HoldsP(s.ps[i]) && HoldsP(s.ps[j]))
    {
      TotalPair(s.ps, i, j, InsideP());
    }
    forall i, j | 0 <= i < |s.ps| && 0 <= j < |s.cs|
      ensures !(HoldsP(s.ps[i]) && HoldsC(s.cs[j]))
    {
      TotalAtLeast(s.ps, i, InsideP());
      TotalAtLeast(s.cs, j, InsideC());
    }
    forall i, j | 0 <= i < j < |s.cs|
      ensures !(HoldsC(s.cs[i]) && HoldsC(s.cs[j]))
    {
      TotalPair(s.cs, i, j, InsideC());
    }
  }

  lemma {:induction false} TotalPair<T(!new)>(s: seq<T>, i: nat, j: nat, f: T -> int)
    requires i < j < |s| && forall k :: 0 <= k < |s| ==> f(s[k]) >= 0
    ensures Total(s, f) >= f(s[i]) + f(s[j])
    decreases |s|
  {
    var last := |s| - 1;
    if j < last {
      TotalPair(s[..last], i, j, f);
    } else {
      TotalAtLeast(s[..last], i, f);
    }
  }
}
