/**
 For how many threads the buffer is a queue: one producer and one consumer, and no others.

 The token invariant holds for any number of threads, but two guards are weaker than a queue
 needs: a deposit does not wait for writers already active, and a reader that is handed the
 baton does not look at its mark again. Both runs are built from stretches (enter, store,
 finish, look, wake, read out) that hold for every capacity and any number of other threads.
 */
module BufferLimits {
  import opened BufferFifo
  import opened BufferSpec
  import opened BufferTokens
  import opened Counts

  lemma {:induction false} RunsAppend(s: State, a: seq<Action>, mid: State, b: seq<Action>, s': State, n: nat)
    requires Runs(s, a, mid, n) && Runs(mid, b, s', n)
    ensures Runs(s, a + b, s', n)
    decreases |a|
  {
    hide Apply, Fine, Enabled;
    if a == [] {
      assert a + b == b;
    } else {
      RunsAppend(Apply(s, a[0], n), a[1..], mid, b, s', n);
      assert (a + b)[1..] == a[1..] + b;
    }
  }

  // One enabled step; the state it reaches satisfies the token invariant again.
  lemma Step(s: State, a: Action, n: nat)
    requires TokenInv(s, n) && Enabled(s, a)
    ensures Runs(s, [a], Apply(s, a, n), n) && TokenInv(Apply(s, a, n), n)
  {
    hide Apply, Enabled, Counters, NonNegative, Tokens;
    StepKeepsTokens(s, a, n);
    assert [a][1..] == [];
    assert Runs(Apply(s, a, n), [], Apply(s, a, n), n);
  }

  lemma Steps(s: State, a: Action, b: Action, n: nat) returns (s': State)
    requires TokenInv(s, n) && Enabled(s, a) && Enabled(Apply(s, a, n), b)
    ensures TokenInv(Apply(s, a, n), n) && s' == Apply(Apply(s, a, n), b, n)
    ensures Runs(s, [a, b], s', n) && TokenInv(s', n)
  {
    hide Runs, Apply, Enabled, Counters, NonNegative, Tokens;
    Step(s, a, n);
    var mid := Apply(s, a, n);
    Step(mid, b, n);
    s' := Apply(mid, b, n);
    RunsAppend(s, [a], mid, [b], s', n);
    assert [a] + [b] == [a, b];
  }

  // ----- stretches of a thread's run -----

  // Into the region, finding the slot free, and out of it as a writer.
  lemma Enter(s: State, i: nat, n: nat) returns (s': State)
    requires TokenInv(s, n) && i < |s.ps| && s.ps[i].pc.Outside? && s.ps[i].todo != [] && s.m.e > 0
    requires Zero(s.m.pending[s.m.nextWrite])
    ensures Runs(s, [Produce(i), Produce(i)], s', n) && TokenInv(s', n)
    ensures s' == State(Signal(s.m.(e := s.m.e - 1, nW := s.m.nW + 1)),
                        s.ps[i := s.ps[i].(pc := Indexing)], s.cs)
  {
    hide TokenInv, Signal, Runs;
    assert Fine(s, n) by { TokenFine(s, n); }
    Step(s, Produce(i), n);
    s' := Steps(s, Produce(i), Produce(i), n);
  }

  lemma Store(s: State, i: nat, n: nat) returns (s': State)
    requires TokenInv(s, n) && i < |s.ps| && s.ps[i].pc.Indexing?
    ensures Runs(s, [Produce(i), Produce(i)], s', n) && TokenInv(s', n)
    ensures s.ps[i].todo != []
    ensures s' == State(s.m.(buffer := s.m.buffer[s.m.nextWrite := s.ps[i].todo[0]]),
                        s.ps[i := s.ps[i].(pc := Stored(s.m.nextWrite))], s.cs)
  {
    hide TokenInv, Runs;
    assert Fine(s, n) by { TokenFine(s, n); }
    assert ProducerFine(s.m, s.ps[i]);
    Step(s, Produce(i), n);
    s' := Steps(s, Produce(i), Produce(i), n);
  }

  lemma Finish(s: State, i: nat, n: nat) returns (s': State)
    requires TokenInv(s, n) && i < |s.ps| && s.ps[i].pc.Stored? && s.m.e > 0
    ensures Runs(s, [Produce(i), Produce(i)], s', n) && TokenInv(s', n)
    ensures s.ps[i].todo != [] && s.ps[i].pc.at < n == |s.m.pending|
    ensures s' == State(Signal(s.m.(e := s.m.e - 1, nW := s.m.nW - 1,
                                    pending := s.m.pending[s.ps[i].pc.at := seq(|s.cs|, j => 1)],
                                    nextWrite := Next(s.m.nextWrite, n))),
                        s.ps[i := Producer(Outside, s.ps[i].todo[1..])], s.cs)
  {
    hide TokenInv, Signal, Runs;
    assert Fine(s, n) by { TokenFine(s, n); }
    assert ProducerFine(s.m, s.ps[i]);
    Step(s, Produce(i), n);
    s' := Steps(s, Produce(i), Produce(i), n);
  }

  // Into the region to look for a value: reading, or asleep.
  lemma Look(s: State, t: nat, n: nat) returns (s': State)
    requires TokenInv(s, n) && t < |s.cs| && s.cs[t].pc.Away? && s.cs[t].left > 0 && s.m.e > 0
    ensures Runs(s, [Consume(t), Consume(t)], s', n) && TokenInv(s', n)
    ensures Sized(s.m, n, |s.cs|)
    ensures var (m, k) := ConsumerStep(s.m.(e := s.m.e - 1), s.cs[t].(pc := Looking), t, n, |s.cs|);
            s' == State(m, s.ps, s.cs[t := k])
  {
    hide TokenInv, Signal, Runs;
    assert Fine(s, n) by { TokenFine(s, n); }
    Step(s, Consume(t), n);
    s' := Steps(s, Consume(t), Consume(t), n);
  }

  lemma Wake(s: State, t: nat, n: nat) returns (s': State)
    requires TokenInv(s, n) && t < |s.cs| && s.cs[t].pc.Asleep? && s.cs[t].pc.at < |s.m.sR|
    requires s.m.sR[s.cs[t].pc.at] > 0
    ensures Runs(s, [Consume(t), Consume(t)], s', n) && TokenInv(s', n)
    ensures Sized(s.m, n, |s.cs|)
    ensures var at := s.cs[t].pc.at;
            s' == State(Signal(s.m.(sR := s.m.sR[at := s.m.sR[at] - 1], nR := s.m.nR[at := s.m.nR[at] + 1])),
                        s.ps, s.cs[t := s.cs[t].(pc := Reading(at))])
  {
    hide TokenInv, Signal, Runs;
    assert Fine(s, n) by { TokenFine(s, n); }
    Step(s, Consume(t), n);
    s' := Steps(s, Consume(t), Consume(t), n);
  }

  // From reading to having left: three steps.
  lemma ReadOut(s: State, t: nat, n: nat) returns (s': State)
    requires TokenInv(s, n) && t < |s.cs| && s.cs[t].pc.Reading? && s.m.e > 0
    ensures Runs(s, [Consume(t), Consume(t)] + [Consume(t)], s', n) && TokenInv(s', n)
    ensures Sized(s.m, n, |s.cs|) && s.cs[t].pc.at < n && s.cs[t].left > 0
    ensures var at := s.cs[t].pc.at;
            s' == State(Signal(s.m.(e := s.m.e - 1, nR := s.m.nR[at := s.m.nR[at] - 1],
                                    pending := s.m.pending[at := s.m.pending[at][t := s.m.pending[at][t] - 1]])),
                        s.ps, s.cs[t := Consumer(Away, s.cs[t].left - 1, s.cs[t].got + [s.m.buffer[at]])])
  {
    hide TokenInv, Signal, Runs;
    assert Fine(s, n) by { TokenFine(s, n); }
    assert ConsumerFine(s.m, s.cs[t]);
    Step(s, Consume(t), n);
    var mid := Steps(s, Consume(t), Consume(t), n);
    Step(mid, Consume(t), n);
    s' := Apply(mid, Consume(t), n);
    RunsAppend(s, [Consume(t), Consume(t)], mid, [Consume(t)], s', n);
  }

  lemma TokenFine(s: State, n: nat)
    requires TokenInv(s, n)
    ensures Fine(s, n)
  {
  }

  // ----- two producers -----

  // Nobody is parked or asleep.
  predicate Quiet(m: Shared) {
    m.waitForDeposit == 0 && forall i :: 0 <= i < |m.waitForRead| ==> m.waitForRead[i] == 0
  }

  lemma QuietSignal(m: Shared)
    requires m.nextWrite < |m.pending| && m.nextWrite < |m.nR| && |m.sR| == |m.waitForRead| && Quiet(m)
    ensures Signal(m) == m.(e := m.e + 1)
  {
  }

  // The shared fields after one deposit of x by the first of the writers that entered.
  function Written(m: Shared, x: int, c: nat, n: nat): Shared
    requires n > 0 && |m.buffer| == |m.pending| == n
  {
    m.(buffer := m.buffer[0 := x], pending := m.pending[0 := seq(c, j => 1)], nextWrite := Next(0, n))
  }

  // The values for producers of which the later ones have nothing to deposit.
  function Values(first: seq<seq<int>>, idle: nat): seq<seq<int>> {
    first + seq(idle, i => [])
  }

  // For every capacity, any two values and any other threads: two producers enter one after the
  // other, both find the first position free, and both deposits return. One position is marked,
  // and it holds the second value; the first is gone. The guard does not look at the writers
  // already active.
  lemma TwoProducersLoseAValue(n: nat, x: int, y: int, idle: nat, wants: seq<nat>)
      returns (actions: seq<Action>, s: State)
    requires n > 0
    ensures Runs(Initial(n, Values([[x], [y]], idle), wants), actions, s, n)
    ensures |s.ps| == idle + 2 && forall i :: 0 <= i < |s.ps| ==> s.ps[i] == Producer(Outside, [])
    ensures s.cs == Initial(n, Values([[x], [y]], idle), wants).cs
    ensures |s.m.buffer| == |s.m.pending| == n
    ensures s.m.buffer[0] == y && forall i :: 0 < i < n ==> s.m.buffer[i] == 0
    ensures forall i :: 0 <= i < n ==> s.m.pending[i] == seq(|wants|, j => if i == 0 then 1 else 0)
  {
    hide Runs, TokenInv, Signal;
    var data, c := Values([[x], [y]], idle), |wants|;
    InitialTokens(n, data, wants);
    var s0, m := Initial(n, data, wants), Create(n, c);
    QuietSignal(m.(e := 0, nW := 1));
    var s1 := Enter(s0, 0, n);
    assert s1.m == m.(nW := 1);
    QuietSignal(m.(e := 0, nW := 2));
    var s2 := Enter(s1, 1, n);
    assert s2 == State(m.(nW := 2), s0.ps[0 := Producer(Indexing, [x])][1 := Producer(Indexing, [y])], s0.cs);
    RunsAppend(s0, [Produce(0), Produce(0)], s1, [Produce(1), Produce(1)], s2, n);
    actions := [Produce(0), Produce(0)] + [Produce(1), Produce(1)];
    var rest, s' := StoreTwice(s2, n, x, y);
    RunsAppend(s0, actions, s2, rest, s', n);
    actions, s := actions + rest, s';
  }

  lemma StoreTwice(s: State, n: nat, x: int, y: int) returns (actions: seq<Action>, s': State)
    requires n > 0 && TokenInv(s, n) && s.m == Create(n, |s.cs|).(nW := 2) && |s.ps| >= 2
    requires s.ps[0] == Producer(Indexing, [x]) && s.ps[1] == Producer(Indexing, [y])
    ensures Runs(s, actions, s', n)
    ensures s'.ps == s.ps[0 := Producer(Outside, [])][1 := Producer(Outside, [])] && s'.cs == s.cs
    ensures s'.m == Create(n, |s.cs|).(buffer := s.m.buffer[0 := y], pending := s.m.pending[0 := seq(|s.cs|, j => 1)],
                                       nextWrite := Next(Next(0, n), n))
  {
    hide Runs, TokenInv, Signal;
    var m, c := s.m, |s.cs|;
    var s1 := Store(s, 0, n);
    var s2 := Store(s1, 1, n);
    assert m.buffer[0 := x][0 := y] == m.buffer[0 := y];
    assert s2.m == m.(buffer := m.buffer[0 := y]);
    RunsAppend(s, [Produce(0), Produce(0)], s1, [Produce(1), Produce(1)], s2, n);
    actions := [Produce(0), Produce(0)] + [Produce(1), Produce(1)];
    var m3 := Written(m, y, c, n).(nW := 1);
    QuietSignal(m3.(e := 0));
    var s3 := Finish(s2, 0, n);
    assert [x][1..] == [] && s3.m == m3;
    RunsAppend(s, actions, s2, [Produce(0), Produce(0)], s3, n);
    actions := actions + [Produce(0), Produce(0)];
    var marked := m3.pending[0 := seq(c, j => 1)];
    QuietSignal(m3.(e := 0, nW := 0, pending := marked, nextWrite := Next(m3.nextWrite, n)));
    s' := Finish(s3, 1, n);
    assert [y][1..] == [] && marked == m.pending[0 := seq(c, j => 1)];
    RunsAppend(s, actions, s3, [Produce(1), Produce(1)], s', n);
    actions := actions + [Produce(1), Produce(1)];
    assert s'.ps == s.ps[0 := Producer(Outside, [])][1 := Producer(Outside, [])];
  }

  // ----- two consumers -----

  // What the consumers want; those after the second want nothing.
  function Wants(others: nat): seq<nat> {
    [2, 1] + seq(others, i => 0)
  }

  // One deposit, marked for every consumer.
  lemma DepositOnce(n: nat, x: int, idle: nat, wants: seq<nat>) returns (actions: seq<Action>, s: State)
    requires n > 0
    ensures Runs(Initial(n, Values([[x]], idle), wants), actions, s, n) && TokenInv(s, n)
    ensures s.m == Written(Create(n, |wants|), x, |wants|, n) && s.cs == Initial(n, Values([[x]], idle), wants).cs
    ensures |s.ps| == idle + 1 && forall i :: 0 <= i < |s.ps| ==> s.ps[i] == Producer(Outside, [])
  {
    hide Runs, TokenInv, Signal;
    var data, c := Values([[x]], idle), |wants|;
    InitialTokens(n, data, wants);
    var s0, m := Initial(n, data, wants), Create(n, c);
    QuietSignal(m.(e := 0, nW := 1));
    var s1 := Enter(s0, 0, n);
    var s2 := Store(s1, 0, n);
    assert s2.m == m.(nW := 1, buffer := m.buffer[0 := x]);
    QuietSignal(Written(m, x, c, n).(e := 0));
    s := Finish(s2, 0, n);
    assert [x][1..] == [];
    RunsAppend(s0, [Produce(0), Produce(0)], s1, [Produce(0), Produce(0)], s2, n);
    RunsAppend(s0, [Produce(0), Produce(0)] + [Produce(0), Produce(0)], s2, [Produce(0), Produce(0)], s, n);
    actions := [Produce(0), Produce(0)] + [Produce(0), Produce(0)] + [Produce(0), Produce(0)];
  }

  // What is left of the marks when the first consumer has read position 0.
  function Halfway(n: nat, x: int, c: nat): Shared
    requires n > 0 && c > 0
  {
    var m := Written(Create(n, c), x, c, n);
    m.(pending := m.pending[0 := m.pending[0][0 := 0]], nextConsume := m.nextConsume[0 := Next(0, n)])
  }

  // The first consumer asleep on the second position, having read the first.
  ghost predicate HasSlept(s: State, n: nat, x: int) {
    && n > 0 && |s.cs| >= 2
    && var m, at := Halfway(n, x, |s.cs|), Next(0, n);
    && s.m == m.(waitForRead := m.waitForRead[at := 1], nextConsume := m.nextConsume[0 := Next(at, n)])
    && s.cs[0] == Consumer(Asleep(at), 1, [x]) && s.cs[1] == Consumer(Away, 1, [])
  }

  // The first consumer reads the value and goes to sleep on the next position.
  lemma ReadAndSleep(s: State, n: nat, x: int) returns (actions: seq<Action>, s': State)
    requires n > 0 && TokenInv(s, n) && |s.cs| >= 2 && s.m == Written(Create(n, |s.cs|), x, |s.cs|, n)
    requires s.cs[0] == Consumer(Away, 2, []) && s.cs[1] == Consumer(Away, 1, [])
    ensures Runs(s, actions, s', n) && TokenInv(s', n)
    ensures HasSlept(s', n, x) && s'.ps == s.ps && |s'.cs| == |s.cs|
  {
    hide Runs, TokenInv, Signal;
    var m0, m := s.m, Halfway(n, x, |s.cs|);
    var reading := m0.(nextConsume := m.nextConsume, nR := m0.nR[0 := 1]);
    QuietSignal(reading.(e := 0));
    var s1 := Look(s, 0, n);
    assert s1 == State(reading, s.ps, s.cs[0 := Consumer(Reading(0), 2, [])]);
    assert reading.nR[0 := 0] == m0.nR && [] + [x] == [x];
    QuietSignal(m.(e := 0));
    var s2 := ReadOut(s1, 0, n);
    assert s2.m == m && s2.cs[0] == Consumer(Away, 1, [x]) && s2.ps == s.ps;
    var at := Next(0, n);
    assert m.pending[at][0] == 0;
    s' := Look(s2, 0, n);
    assert m.nextConsume[0 := Next(at, n)] == m0.nextConsume[0 := Next(at, n)];
    var c := Consume(0);
    RunsAppend(s, [c, c], s1, [c, c] + [c], s2, n);
    RunsAppend(s, [c, c] + ([c, c] + [c]), s2, [c, c], s', n);
    actions := [c, c] + ([c, c] + [c]) + [c, c];
  }

  // For every capacity, any value and any other threads: one value is deposited, and the first
  // consumer returns two. The second consumer's SIGNAL wakes it from the next position without
  // looking at its mark; with one position it reads the value again, with more one nobody has
  // written.
  lemma TwoConsumersReadTwice(n: nat, x: int, idle: nat, others: nat) returns (actions: seq<Action>, s: State)
    requires n > 0
    ensures Runs(Initial(n, Values([[x]], idle), Wants(others)), actions, s, n)
    ensures |s.ps| == idle + 1 && forall i :: 0 <= i < |s.ps| ==> s.ps[i] == Producer(Outside, [])
    ensures s.cs != [] && s.cs[0] == Consumer(Away, 0, [x, if n == 1 then x else 0])
  {
    hide Runs, TokenInv, HasSlept;
    var s0 := Initial(n, Values([[x]], idle), Wants(others));
    var a, s1 := DepositOnce(n, x, idle, Wants(others));
    var b, s2 := ReadAndSleep(s1, n, x);
    RunsAppend(s0, a, s1, b, s2, n);
    var rest, s' := WokenTooSoon(s2, n, x);
    RunsAppend(s0, a + b, s2, rest, s', n);
    actions, s := a + b + rest, s';
  }

  lemma WokenTooSoon(s: State, n: nat, x: int) returns (actions: seq<Action>, s': State)
    requires TokenInv(s, n) && HasSlept(s, n, x)
    ensures Runs(s, actions, s', n) && s'.ps == s.ps
    ensures s'.cs != [] && s'.cs[0] == Consumer(Away, 0, [x, if n == 1 then x else 0])
  {
    hide Runs, TokenInv, Signal;
    var m, at := Halfway(n, x, |s.cs|), Next(0, n);
    assert s.m.pending[0][1] == 1 && s.m.nextConsume[1] == 0;
    var busy := s.m.(e := 0, nextConsume := s.m.nextConsume[1 := Next(0, n)], nR := m.nR[0 := 1]);
    var passed := busy.(waitForRead := m.waitForRead, sR := m.sR[at := 1]);
    BatonToSleeper(busy, passed, at);
    var s1 := Look(s, 1, n);
    assert s1 == State(passed, s.ps, s.cs[1 := Consumer(Reading(0), 1, [])]);
    var awake := passed.(sR := m.sR, nR := passed.nR[at := passed.nR[at] + 1]);
    assert passed.sR[at := 0] == m.sR;
    QuietSignal(awake);
    var s2 := Wake(s1, 0, n);
    assert s2.m == awake.(e := 1) && s2.cs[0] == Consumer(Reading(at), 1, [x]);
    var over := awake.(nR := awake.nR[at := awake.nR[at] - 1],
                       pending := awake.pending[at := awake.pending[at][0 := awake.pending[at][0] - 1]]);
    QuietSignal(over);
    s' := ReadOut(s2, 0, n);
    assert [x] + [m.buffer[at]] == [x, if n == 1 then x else 0];
    var c, d := Consume(0), Consume(1);
    RunsAppend(s, [d, d], s1, [c, c], s2, n);
    RunsAppend(s, [d, d] + [c, c], s2, [c, c] + [c], s', n);
    actions := [d, d] + [c, c] + ([c, c] + [c]);
  }

  // With one reader asleep and no writer active the baton goes to it.
  lemma BatonToSleeper(m: Shared, m': Shared, at: nat)
    requires m.nextWrite < |m.pending| && m.nextWrite < |m.nR| && |m.sR| == |m.waitForRead| && at < |m.sR|
    requires m.nW == 0 && m.nextConsume != [] && m.sR[at] == 0
    requires forall i :: 0 <= i < |m.waitForRead| ==> m.waitForRead[i] == if i == at then 1 else 0
    requires m' == m.(waitForRead := m'.waitForRead, sR := m.sR[at := 1])
    requires |m'.waitForRead| == |m.waitForRead| && forall i :: 0 <= i < |m.waitForRead| ==> m'.waitForRead[i] == 0
    ensures Signal(m) == m'
  {
    var k := FirstWaiting(m.waitForRead, 0);
    assert m.waitForRead[at] == 1;
    assert k == at;
    assert m.waitForRead[at := 0] == m'.waitForRead;
  }

  // ----- exactly one of each -----

  // Whatever the values and the interleaving, p producers and c consumers find a queue.
  ghost predicate AlwaysQueue(n: nat, p: nat, c: nat)
    requires n > 0
  {
    forall data, wants, actions, s :: |data| == p && |wants| == c && Runs(Initial(n, data, wants), actions, s, n) ==>
      IsQueue(s, n, data)
  }

  ghost function Len(): seq<int> -> int { part => |part| }

  // An interleaving has as many values as its parts.
  lemma {:induction false} InterleavesTotal(order: seq<int>, parts: seq<seq<int>>)
    requires Interleaves(order, parts)
    ensures |order| == Total(parts, Len())
    decreases |order|
  {
    if order == [] {
      TotalZero(parts, Len());
    } else {
      var i :| 0 <= i < |parts| && parts[i] != [] && parts[i][|parts[i]| - 1] == order[|order| - 1]
               && Interleaves(order[..|order| - 1], parts[i := parts[i][..|parts[i]| - 1]]);
      InterleavesTotal(order[..|order| - 1], parts[i := parts[i][..|parts[i]| - 1]]);
      TotalUpdate(parts, i, parts[i][..|parts[i]| - 1], Len());
    }
  }

  // One value a part in the first parts, and none in the others.
  lemma {:induction false} TotalOnes(parts: seq<seq<int>>, k: nat)
    requires k <= |parts| && forall i :: 0 <= i < |parts| ==> |parts[i]| == if i < k then 1 else 0
    ensures Total(parts, Len()) == k
    decreases |parts|
  {
    if parts != [] {
      TotalOnes(parts[..|parts| - 1], if k == |parts| then k - 1 else k);
    }
  }

  // What was deposited when every producer is done.
  lemma AllDeposited(s: State, data: seq<seq<int>>)
    requires |s.ps| == |data| && forall i :: 0 <= i < |s.ps| ==> s.ps[i] == Producer(Outside, [])
    ensures Deposited(s.ps, data) == data
  {
    assert forall i :: 0 <= i < |data| ==> data[i][..|data[i]|] == data[i];
  }

  lemma TwoProducersAreNoQueue(n: nat, p: nat, c: nat)
    requires n > 0 && p >= 2 && c >= 1
    ensures !AlwaysQueue(n, p, c)
  {
    hide Runs, Slot, Initial;
    var data, wants := Values([[1], [2]], p - 2), seq(c, i => 0);
    var actions, s := TwoProducersLoseAValue(n, 1, 2, p - 2, wants);
    assert |s.cs| == c by { InitialSizes(n, data, wants); }
    AllDeposited(s, data);
    TotalOnes(data, 2);
    SlotZero(n);
    SlotFacts(0, n);
    forall order | Interleaves(order, data)
      ensures !InOrder(s, n, order)
    {
      InterleavesTotal(order, data);
      assert s.cs[0].got == [] by { InitialSizes(n, data, wants); }
    }
    assert !IsQueue(s, n, data);
  }

  lemma InitialSizes(n: nat, data: seq<seq<int>>, wants: seq<nat>)
    ensures |Initial(n, data, wants).cs| == |wants|
    ensures forall t :: 0 <= t < |wants| ==> Initial(n, data, wants).cs[t].got == []
  {
  }

  lemma TwoConsumersAreNoQueue(n: nat, p: nat, c: nat)
    requires n > 0 && p >= 1 && c >= 2
    ensures !AlwaysQueue(n, p, c)
  {
    hide Runs, Initial;
    var data, wants := Values([[1]], p - 1), Wants(c - 2);
    var actions, s := TwoConsumersReadTwice(n, 1, p - 1, c - 2);
    AllDeposited(s, data);
    TotalOnes(data, 1);
    forall order | Interleaves(order, data)
      ensures !InOrder(s, n, order)
    {
      InterleavesTotal(order, data);
      assert |s.cs[0].got| > |order|;
    }
    assert !IsQueue(s, n, data);
  }

  lemma OneOfEachIsQueue(n: nat)
    requires n > 0
    ensures AlwaysQueue(n, 1, 1)
  {
    hide Runs, IsQueue, Initial;
    forall data: seq<seq<int>>, wants: seq<nat>, actions, s |
      |data| == 1 && |wants| == 1 && Runs(Initial(n, data, wants), actions, s, n)
      ensures IsQueue(s, n, data)
    {
      assert data == [data[0]] && wants == [wants[0]];
      Fifo(n, data[0], wants[0], actions, s);
    }
  }

  // At every capacity, the buffer is a queue in every run iff there is one producer and one consumer.
  lemma QueueIffOneOfEach(n: nat, p: nat, c: nat)
    requires n > 0 && p >= 1 && c >= 1
    ensures AlwaysQueue(n, p, c) <==> p == 1 && c == 1
  {
    hide AlwaysQueue;
    if p == 1 && c == 1 {
      OneOfEachIsQueue(n);
    } else if p > 1 {
      TwoProducersAreNoQueue(n, p, c);
    } else {
      TwoConsumersAreNoQueue(n, p, c);
    }
  }
}
