/**
 Whole runs of the page-replacement simulator: one access under each algorithm, what every
 access keeps, and the stack property of LRU.
 */
module PagingSim {
  import opened Base
  import opened Paging

  // One line of the input file: the page the address lies in, and whether it is written.
  // `draw` is the value rand() would return on this access.
  datatype Op = Op(page: nat, write: bool, draw: nat)

  datatype Sim = Sim(frames: seq<Pte>, time: nat, faults: nat, writes: nat)

  const START := Sim([], 0, 0, 0)

  // The first frame that holds the page; |frames| if there is none.
  function Find(frames: seq<Pte>, page: nat): (i: nat)
    ensures i <= |frames|
    ensures i < |frames| ==> frames[i].page == page
    ensures forall j :: 0 <= j < i ==> frames[j].page != page
  {
    if frames == [] then 0 else if frames[0].page == page then 0 else 1 + Find(frames[1..], page)
  }

  function NewPte(op: Op, time: int): Pte {
    Pte(op.page, time, if op.write then MODIFIED else 0, true)
  }

  function Touched(pte: Pte, op: Op, time: int): Pte {
    pte.(lastAccessTime := time, status := if op.write then REFERENCED + MODIFIED else REFERENCED)
  }

  function ResetFlags(frames: seq<Pte>): (r: seq<Pte>)
    ensures |r| == |frames|
  {
    seq(|frames|, i requires 0 <= i < |frames| => frames[i].(status := 0))
  }

  // lastFlagResetTime stays -1, so once the time is past the limit every replacement resets.
  function BeforeReplace(m: nat, frames: seq<Pte>, time: int): (r: seq<Pte>)
    ensures |r| == |frames|
  {
    if time > m * 1024 then ResetFlags(frames) else frames
  }

  // The frames after a replacement; None is the failure exit of algo_nru.
  function Replace(algo: Algorithm, frames: seq<Pte>, pte: Pte, time: int, draw: nat): Option<seq<Pte>>
    requires frames != []
  {
    match algo
    case Lru => Some(frames[Earliest(frames, time) := pte])
    case Sec => var (frames', victim, _) := SecondChance(frames, time); Some(frames'[victim := pte])
    case Nru =>
      var victim := NotRecent(frames, draw);
      if victim < |frames| then Some(frames[victim := pte]) else None
  }

  function Access(m: nat, algo: Algorithm, s: Sim, op: Op): Option<Sim>
    requires 0 < m && |s.frames| <= m
  {
    var t := s.time + 1;
    var i := Find(s.frames, op.page);
    var writes' := s.writes + if op.write then 1 else 0;
    if i < |s.frames| then
      Some(s.(frames := s.frames[i := Touched(s.frames[i], op, t)], time := t))
    else if |s.frames| < m then
      Some(Sim(s.frames + [NewPte(op, t)], t, s.faults + 1, writes'))
    else
      match Replace(algo, BeforeReplace(m, s.frames, t), NewPte(op, t), t, op.draw)
      case None => None
      case Some(frames') => Some(Sim(frames', t, s.faults + 1, writes'))
  }

  // ----- What every access keeps -----

  predicate Resident(frames: seq<Pte>, page: nat) {
    exists i :: 0 <= i < |frames| && frames[i].page == page
  }

  ghost predicate Distinct(frames: seq<Pte>) {
    forall i, j :: 0 <= i < j < |frames| ==> frames[i].page != frames[j].page
  }

  ghost predicate Inv(m: nat, s: Sim) {
    && |s.frames| <= m
    && Distinct(s.frames)
    && s.faults >= |s.frames|
    && s.writes <= s.faults <= s.time
    && forall i :: 0 <= i < |s.frames| ==> StatusOk(s.frames[i].status) && s.frames[i].lastAccessTime <= s.time
  }

  lemma FindIsResident(frames: seq<Pte>, page: nat)
    ensures Resident(frames, page) <==> Find(frames, page) < |frames|
  {
  }

  // What a replacement leaves in place: every frame but one keeps its page.
  lemma ReplaceFacts(algo: Algorithm, frames: seq<Pte>, pte: Pte, time: int, draw: nat) returns (v: nat)
    requires frames != []
    requires forall i :: 0 <= i < |frames| ==> frames[i].lastAccessTime < time && StatusOk(frames[i].status)
    ensures v < |frames|
    ensures
      var r := Replace(algo, frames, pte, time, draw);
      && r.Some? && |r.value| == |frames| && r.value[v] == pte
      && forall i :: 0 <= i < |frames| && i != v ==>
           && r.value[i].page == frames[i].page && r.value[i].status == frames[i].status
           && r.value[i].lastAccessTime <= time
  {
    hide Earliest, SecondChance, NotRecent, SetBits, LowestClass;
    match algo {
      case Lru => v := Earliest(frames, time);
      case Sec =>
        v := SecondChance(frames, time).1;
        SecondChanceEvicts(frames, time);
      case Nru =>
        v := NotRecent(frames, draw);
        NotRecentEvictsLowest(frames, draw);
    }
  }

  // Under every algorithm and every draw an access succeeds, keeps the frames distinct and
  // within the limit, leaves the page in memory, evicts only when the memory is full, and
  // then exactly one page; it counts a fault just when the page was not in memory.
  lemma AccessKeeps(m: nat, algo: Algorithm, s: Sim, op: Op)
    requires 0 < m && Inv(m, s)
    ensures
      var r := Access(m, algo, s, op);
      && r.Some? && Inv(m, r.value)
      && Resident(r.value.frames, op.page)
      && r.value.time == s.time + 1
      && r.value.faults == s.faults + (if Resident(s.frames, op.page) then 0 else 1)
      && r.value.writes == s.writes + (if op.write && !Resident(s.frames, op.page) then 1 else 0)
      && (Resident(s.frames, op.page) || |s.frames| < m ==>
            forall i :: 0 <= i < |s.frames| ==> Resident(r.value.frames, s.frames[i].page))
      && (!Resident(s.frames, op.page) && |s.frames| == m ==>
            exists v :: 0 <= v < m && !Resident(r.value.frames, s.frames[v].page)
                        && forall i :: 0 <= i < m && i != v ==> Resident(r.value.frames, s.frames[i].page))
  {
    hide Replace, Find, ResetFlags;
    FindIsResident(s.frames, op.page);
    var t := s.time + 1;
    var i := Find(s.frames, op.page);
    var frames' := Access(m, algo, s, op);
    if i < |s.frames| {
      assert forall k :: 0 <= k < |s.frames| ==> frames'.value.frames[k].page == s.frames[k].page;
    } else if |s.frames| < m {
      assert forall k :: 0 <= k < |s.frames| ==> frames'.value.frames[k] == s.frames[k];
      assert frames'.value.frames[|s.frames|].page == op.page;
    } else {
      ReplaceKeeps(m, algo, s, op);
    }
  }

  lemma ReplaceKeeps(m: nat, algo: Algorithm, s: Sim, op: Op)
    requires 0 < m && Inv(m, s) && |s.frames| == m && !Resident(s.frames, op.page)
    ensures
      var t := s.time + 1;
      var r := Replace(algo, BeforeReplace(m, s.frames, t), NewPte(op, t), t, op.draw);
      && r.Some? && |r.value| == m
      && Distinct(r.value)
      && (forall i :: 0 <= i < m ==> StatusOk(r.value[i].status) && r.value[i].lastAccessTime <= t)
      && Resident(r.value, op.page)
      && exists v :: 0 <= v < m && !Resident(r.value, s.frames[v].page)
                     && forall i :: 0 <= i < m && i != v ==> Resident(r.value, s.frames[i].page)
  {
    hide Replace;
    var t := s.time + 1;
    var before := BeforeReplace(m, s.frames, t);
    assert forall i :: 0 <= i < m ==>
        && before[i].page == s.frames[i].page && before[i].lastAccessTime == s.frames[i].lastAccessTime
        && StatusOk(before[i].status);
    var v := ReplaceFacts(algo, before, NewPte(op, t), t, op.draw);
    var after := Replace(algo, before, NewPte(op, t), t, op.draw).value;
    assert forall i :: 0 <= i < m ==> after[i].page == if i == v then op.page else s.frames[i].page;
    assert !Resident(after, s.frames[v].page);
  }

  // ----- Runs -----

  function Run(m: nat, algo: Algorithm, trace: seq<Op>): (r: Option<Sim>)
    requires 0 < m
    ensures r.Some? ==> |r.value.frames| <= m
  {
    if trace == [] then Some(START)
    else
      match Run(m, algo, trace[..|trace| - 1])
      case None => None
      case Some(s) =>
        var r := Access(m, algo, s, trace[|trace| - 1]);
        if r.Some? && |r.value.frames| > m then None else r
  }

  // No trace and no draws make the simulator fail.
  lemma {:induction false} RunKeeps(m: nat, algo: Algorithm, trace: seq<Op>)
    requires 0 < m
    ensures Run(m, algo, trace).Some? && Inv(m, Run(m, algo, trace).value)
    ensures Run(m, algo, trace).value.time == |trace|
  {
    hide Access;
    if trace != [] {
      RunKeeps(m, algo, trace[..|trace| - 1]);
      AccessKeeps(m, algo, Run(m, algo, trace[..|trace| - 1]).value, trace[|trace| - 1]);
    }
  }

  // After any trace, a fault with the memory full lets algo_sec evict the first page in order
  // of use whose bit is clear, or the head of the list when none is; the pages before it, and
  // only those, lose their bit and count as just used.
  lemma SecEvictsInRun(m: nat, trace: seq<Op>, op: Op) returns (v: nat)
    requires 0 < m && Run(m, Sec, trace).Some? && |Run(m, Sec, trace).value.frames| == m
    requires !Resident(Run(m, Sec, trace).value.frames, op.page)
    ensures
      var frames := Run(m, Sec, trace).value.frames;
      var after := Access(m, Sec, Run(m, Sec, trace).value, op);
      && v < m && after.Some? && |after.value.frames| == m
      && after.value.frames[v] == NewPte(op, |trace| + 1)
      && (if forall i :: 0 <= i < m ==> frames[i].rBit then v == 0
          else !frames[v].rBit && forall i :: 0 <= i < m && !frames[i].rBit && i != v ==> Before(frames, v, i))
      && forall i :: 0 <= i < m && i != v ==>
           var f := after.value.frames[i];
           f.page == frames[i].page
           && if !frames[v].rBit ==> Before(frames, i, v) then !f.rBit && f.lastAccessTime == |trace| + 1
              else f.rBit == frames[i].rBit && f.lastAccessTime == frames[i].lastAccessTime
  {
    hide Run, Find, Resident, BeforeReplace, SecondChance, SetBits, StatusOk, NotRecent, Earliest;
    RunKeeps(m, Sec, trace);
    var s := Run(m, Sec, trace).value;
    FindIsResident(s.frames, op.page);
    var start := BeforeReplace(m, s.frames, s.time + 1);
    ResetFacts(m, s.frames, s.time + 1);
    SecondChanceEvicts(start, s.time + 1);
    v := SecondChance(start, s.time + 1).1;
  }

  // What resetting the flags leaves alone, and when it happens.
  lemma ResetFacts(m: nat, frames: seq<Pte>, time: int)
    ensures
      var start := BeforeReplace(m, frames, time);
      && (forall i :: 0 <= i < |frames| ==>
            && start[i].page == frames[i].page && start[i].rBit == frames[i].rBit
            && start[i].lastAccessTime == frames[i].lastAccessTime
            && (StatusOk(frames[i].status) ==> StatusOk(start[i].status)))
      && (time <= m * 1024 ==> start == frames)
      && (time > m * 1024 ==> forall i :: 0 <= i < |frames| ==> start[i].status == 0)
  {
  }

  // One access leaves every page in its frame or replaces it by the page accessed, and no
  // algorithm, nor accessMemory, sets a reference bit.
  lemma AccessInPlace(m: nat, algo: Algorithm, s: Sim, op: Op)
    requires 0 < m && Inv(m, s) && Access(m, algo, s, op).Some?
    ensures
      var after := Access(m, algo, s, op).value.frames;
      && (forall i :: 0 <= i < |after| ==>
            || (i < |s.frames| && after[i].page == s.frames[i].page)
            || (after[i].page == op.page && !Resident(s.frames, op.page)))
      && (forall i :: 0 <= i < |s.frames| && i < |after| && after[i].page == s.frames[i].page && after[i].rBit ==>
            s.frames[i].rBit)
  {
    hide BeforeReplace, SecondChance, SetBits, StatusOk, NotRecent, Earliest, Find;
    FindIsResident(s.frames, op.page);
    var t := s.time + 1;
    if !Resident(s.frames, op.page) && |s.frames| == m {
      ResetFacts(m, s.frames, t);
      if algo == Sec {
        SecondChanceEvicts(BeforeReplace(m, s.frames, t), t);
      }
    }
  }

  // The page is in memory without its reference bit.
  ghost predicate Cleared(frames: seq<Pte>, page: nat) {
    exists i :: 0 <= i < |frames| && frames[i].page == page && !frames[i].rBit
  }

  ghost predicate InMemory(m: nat, algo: Algorithm, trace: seq<Op>, page: nat)
    requires 0 < m
  {
    Run(m, algo, trace).Some? && Resident(Run(m, algo, trace).value.frames, page)
  }

  lemma AccessKeepsCleared(m: nat, algo: Algorithm, s: Sim, op: Op, page: nat)
    requires 0 < m && Inv(m, s) && Cleared(s.frames, page) && Access(m, algo, s, op).Some?
    requires Resident(Access(m, algo, s, op).value.frames, page)
    ensures Cleared(Access(m, algo, s, op).value.frames, page)
  {
    hide Access;
    AccessInPlace(m, algo, s, op);
    var after := Access(m, algo, s, op).value.frames;
    var i :| 0 <= i < |s.frames| && s.frames[i].page == page && !s.frames[i].rBit;
    var j :| 0 <= j < |after| && after[j].page == page;
    assert Resident(s.frames, page);
    assert i == j;
  }

  // Under every algorithm, a page that has lost its bit is without one after every longer
  // trace that keeps it in memory, however often it uses the page.
  lemma {:induction false} BitsAreNotSetAgain(m: nat, algo: Algorithm, trace: seq<Op>, more: seq<Op>, page: nat)
    requires 0 < m && Run(m, algo, trace).Some? && Cleared(Run(m, algo, trace).value.frames, page)
    requires forall k :: 0 <= k <= |more| ==> InMemory(m, algo, trace + more[..k], page)
    ensures Run(m, algo, trace + more).Some? && Cleared(Run(m, algo, trace + more).value.frames, page)
    decreases |more|
  {
    hide Access, Resident, Cleared, Inv;
    if more == [] {
      assert trace + more == trace;
    } else {
      var fewer, op := more[..|more| - 1], more[|more| - 1];
      assert forall k :: 0 <= k <= |fewer| ==> fewer[..k] == more[..k];
      BitsAreNotSetAgain(m, algo, trace, fewer, page);
      assert (trace + more)[..|trace + more| - 1] == trace + fewer;
      assert InMemory(m, algo, trace + more[..|more|], page) && more[..|more|] == more;
      RunKeeps(m, algo, trace + fewer);
      AccessKeepsCleared(m, algo, Run(m, algo, trace + fewer).value, op, page);
    }
  }

  // The frame's page is of the lowest class there is.
  ghost predicate Lowest(frames: seq<Pte>, v: nat)
    requires v < |frames|
  {
    forall i :: 0 <= i < |frames| ==> Rank(frames[v].status) <= Rank(frames[i].status)
  }

  // After the trace the access finds the memory full and its page absent, and takes frame v.
  ghost predicate Evicts(m: nat, algo: Algorithm, trace: seq<Op>, op: Op, v: nat)
    requires 0 < m
  {
    && v < m && Run(m, algo, trace).Some? && |Run(m, algo, trace).value.frames| == m
    && var s := Run(m, algo, trace).value;
    && !Resident(s.frames, op.page)
    && var after := Access(m, algo, s, op);
    && after.Some? && |after.value.frames| == m
    && after.value.frames[v] == NewPte(op, |trace| + 1)
    && forall i :: 0 <= i < m && i != v ==> after.value.frames[i].page == s.frames[i].page
  }

  // Which page algo_nru gives up, after any trace and for any draw: until the first
  // maxPages * 1024 accesses one of the lowest class present; from then on the flags are reset
  // at every replacement, so that the draw alone decides.
  lemma NruEvictsInRun(m: nat, trace: seq<Op>, op: Op) returns (v: nat)
    requires 0 < m && Run(m, Nru, trace).Some? && |Run(m, Nru, trace).value.frames| == m
    requires !Resident(Run(m, Nru, trace).value.frames, op.page)
    ensures Evicts(m, Nru, trace, op, v)
    ensures
      var frames := Run(m, Nru, trace).value.frames;
      && (|trace| < m * 1024 ==> Lowest(frames, v))
      && (|trace| >= m * 1024 ==> v == op.draw % m && (Lowest(frames, v) <==> Lowest(frames, op.draw % m)))
  {
    hide Run, Find, Resident, BeforeReplace, SecondChance, StatusOk, NotRecent, Earliest, LowestClass, Rank;
    RunKeeps(m, Nru, trace);
    var s := Run(m, Nru, trace).value;
    FindIsResident(s.frames, op.page);
    var start := BeforeReplace(m, s.frames, s.time + 1);
    ResetFacts(m, s.frames, s.time + 1);
    NotRecentEvictsLowest(start, op.draw);
    v := NotRecent(start, op.draw);
    if |trace| >= m * 1024 {
      AllOfOneClass(start, op.draw);
    }
  }

  lemma OneVictim(m: nat, algo: Algorithm, trace: seq<Op>, op: Op, v: nat, w: nat)
    requires 0 < m && Evicts(m, algo, trace, op, v) && Evicts(m, algo, trace, op, w)
    ensures v == w
  {
    hide Run, Access;
  }

  // After traces of this length the victim is of the lowest class, whatever the trace and the draws.
  ghost predicate AlwaysLowest(m: nat, length: nat)
    requires 0 < m
  {
    forall trace, op, v: nat :: |trace| == length && Evicts(m, Nru, trace, op, v) ==>
      Lowest(Run(m, Nru, trace).value.frames, v)
  }

  // Page 0 is read once, the others are written, and from then on page 1 is written over and over.
  function BusyTrace(m: nat, length: nat): seq<Op> {
    seq(length, i requires i >= 0 => Op(if i < m then i else 1, i != 0, 0))
  }

  function BusyFrames(m: nat, length: nat): seq<Pte>
    requires m >= 2
  {
    seq(Min(length, m), i requires i >= 0 =>
      if i == 1 && length > m then Pte(1, length, REFERENCED + MODIFIED, true)
      else Pte(i, i + 1, if i == 0 then 0 else MODIFIED, true))
  }

  lemma {:induction false} BusyRun(m: nat, length: nat)
    requires m >= 2
    ensures Run(m, Nru, BusyTrace(m, length)).Some?
    ensures Run(m, Nru, BusyTrace(m, length)).value.frames == BusyFrames(m, length)
    decreases length
  {
    hide Replace;
    RunKeeps(m, Nru, BusyTrace(m, length));
    if length > 0 {
      var before := BusyTrace(m, length - 1);
      assert BusyTrace(m, length)[..length - 1] == before;
      BusyRun(m, length - 1);
      RunKeeps(m, Nru, before);
      BusyStep(m, length - 1, Run(m, Nru, before).value);
    }
  }

  lemma BusyStep(m: nat, length: nat, s: Sim)
    requires m >= 2 && s.frames == BusyFrames(m, length) && s.time == length
    ensures Access(m, Nru, s, BusyTrace(m, length + 1)[length]).Some?
    ensures Access(m, Nru, s, BusyTrace(m, length + 1)[length]).value.frames == BusyFrames(m, length + 1)
  {
    hide Replace, Find;
    var op := BusyTrace(m, length + 1)[length];
    FindIsResident(s.frames, op.page);
    if length >= m {
      assert s.frames[1].page == 1;
      assert Find(s.frames, 1) == 1;
    }
  }

  // With one page at most, or until m * 1024 accesses, the victim is always of the lowest
  // class; otherwise some trace of the length and some draw make it a page written again and
  // again, with one in memory that was read once.
  lemma AlwaysLowestIff(m: nat, length: nat)
    requires 0 < m
    ensures AlwaysLowest(m, length) <==> m == 1 || length < m * 1024
  {
    hide Run, Access, Resident;
    if m == 1 || length < m * 1024 {
      forall trace, op, v: nat | |trace| == length && Evicts(m, Nru, trace, op, v)
        ensures Lowest(Run(m, Nru, trace).value.frames, v)
      {
        var w := NruEvictsInRun(m, trace, op);
        OneVictim(m, Nru, trace, op, v, w);
      }
    } else {
      var trace, op := BusyTrace(m, length), Op(m, false, 1);
      BusyRun(m, length);
      assert !Resident(BusyFrames(m, length), m) by { Absent(m, length); }
      var v := NruEvictsInRun(m, trace, op);
      assert v == 1 && Rank(BusyFrames(m, length)[1].status) > Rank(BusyFrames(m, length)[0].status);
    }
  }

  lemma Absent(m: nat, length: nat)
    requires m >= 2
    ensures !Resident(BusyFrames(m, length), m)
  {
  }

  // ----- The most recently used pages -----

  // The time of the page's last use, counting from 1; 0 if it was never used.
  function LastUse(trace: seq<Op>, page: nat): (t: nat)
    ensures t <= |trace|
    ensures t > 0 ==> trace[t - 1].page == page
    ensures forall i :: t <= i < |trace| ==> trace[i].page != page
  {
    if trace == [] then 0
    else if trace[|trace| - 1].page == page then |trace|
    else LastUse(trace[..|trace| - 1], page)
  }

  function Without(s: seq<nat>, page: nat): seq<nat> {
    if s == [] then [] else (if s[0] == page then [] else [s[0]]) + Without(s[1..], page)
  }

  // The pages used so far, without duplicates, the last used first.
  function Recent(trace: seq<Op>): seq<nat> {
    if trace == [] then []
    else [trace[|trace| - 1].page] + Without(Recent(trace[..|trace| - 1]), trace[|trace| - 1].page)
  }

  lemma {:induction false} WithoutAbsent(s: seq<nat>, page: nat)
    requires page !in s
    ensures Without(s, page) == s
  {
    if s != [] {
      WithoutAbsent(s[1..], page);
    }
  }

  lemma {:induction false} WithoutAt(s: seq<nat>, j: nat)
    requires j < |s| && forall i :: 0 <= i < |s| && i != j ==> s[i] != s[j]
    ensures Without(s, s[j]) == s[..j] + s[j + 1..]
  {
    if j == 0 {
      WithoutAbsent(s[1..], s[0]);
    } else {
      WithoutAt(s[1..], j - 1);
      assert s[..j] == [s[0]] + s[1..][..j - 1];
    }
  }

  ghost predicate Descending(trace: seq<Op>, r: seq<nat>) {
    forall i, j :: 0 <= i < j < |r| ==> LastUse(trace, r[i]) > LastUse(trace, r[j])
  }

  ghost predicate UsedPages(trace: seq<Op>, r: seq<nat>) {
    forall page :: page in r <==> LastUse(trace, page) > 0
  }

  // The j-th page moved to the front.
  function Moved(r: seq<nat>, j: nat): (r': seq<nat>)
    requires j < |r|
    ensures |r'| == |r| && r'[0] == r[j]
    ensures forall i :: 0 < i < |r| ==> r'[i] == r[if i <= j then i - 1 else i]
  {
    [r[j]] + r[..j] + r[j + 1..]
  }

  // Moving a page to the front keeps the pages of every long enough prefix.
  lemma MovedPrefix(r: seq<nat>, j: nat, k: nat)
    requires j < k <= |r|
    ensures forall page :: page in Moved(r, j)[..k] <==> page in r[..k]
  {
    hide Moved;
    var r' := Moved(r, j);
    forall page
      ensures page in r'[..k] <==> page in r[..k]
    {
      if page in r[..k] {
        var i :| 0 <= i < k && r[i] == page;
        assert r'[if i == j then 0 else if i < j then i + 1 else i] == page;
      }
      if page in r'[..k] {
        var i :| 0 <= i < k && r'[i] == page;
        assert r[if i == 0 then j else if i <= j then i - 1 else i] == page;
      }
    }
  }

  lemma DescendingDistinct(trace: seq<Op>, r: seq<nat>, j: nat)
    requires Descending(trace, r) && j < |r|
    ensures forall i :: 0 <= i < |r| && i != j ==> r[i] != r[j]
  {
    hide LastUse;
    forall i | 0 <= i < |r| && i != j
      ensures r[i] != r[j]
    {
      var lo, hi := if i < j then i else j, if i < j then j else i;
      assert LastUse(trace, r[lo]) > LastUse(trace, r[hi]);
    }
  }

  // A page used again moves to the front, a new page is put there.
  lemma RecentAgain(before: seq<Op>, op: Op, j: nat)
    requires Descending(before, Recent(before)) && j < |Recent(before)| && Recent(before)[j] == op.page
    ensures Recent(before + [op]) == Moved(Recent(before), j)
  {
    hide LastUse;
    var r := Recent(before);
    assert (before + [op])[..|before|] == before;
    DescendingDistinct(before, r, j);
    WithoutAt(r, j);
    assert [op.page] + (r[..j] + r[j + 1..]) == [op.page] + r[..j] + r[j + 1..];
  }

  lemma RecentNew(before: seq<Op>, op: Op)
    requires op.page !in Recent(before)
    ensures Recent(before + [op]) == [op.page] + Recent(before)
  {
    assert (before + [op])[..|before|] == before;
    WithoutAbsent(Recent(before), op.page);
  }

  lemma LastUseStep(before: seq<Op>, op: Op, page: nat)
    ensures LastUse(before + [op], page) == if page == op.page then |before| + 1 else LastUse(before, page)
  {
    assert (before + [op])[..|before|] == before;
  }

  ghost predicate UsedNow(before: seq<Op>, op: Op) {
    forall page :: LastUse(before + [op], page) == if page == op.page then |before| + 1 else LastUse(before, page)
  }

  lemma AllUsedNow(before: seq<Op>, op: Op)
    ensures UsedNow(before, op)
  {
    hide LastUse;
    forall page
      ensures LastUse(before + [op], page) == if page == op.page then |before| + 1 else LastUse(before, page)
    {
      LastUseStep(before, op, page);
    }
  }

  // The list holds exactly the pages used, each once, in the order of their last use.
  lemma {:induction false} RecentIsByLastUse(trace: seq<Op>)
    ensures Descending(trace, Recent(trace)) && UsedPages(trace, Recent(trace))
  {
    if trace != [] {
      var before, op := trace[..|trace| - 1], trace[|trace| - 1];
      assert trace == before + [op];
      RecentIsByLastUse(before);
      hide *;
      RecentIsByLastUseStep(before, op);
    }
  }

  lemma RecentIsByLastUseStep(before: seq<Op>, op: Op)
    requires Descending(before, Recent(before)) && UsedPages(before, Recent(before))
    ensures Descending(before + [op], Recent(before + [op])) && UsedPages(before + [op], Recent(before + [op]))
  {
    hide LastUse, Recent, Descending, Moved;
    var r := Recent(before);
    AllUsedNow(before, op);
    if j :| 0 <= j < |r| && r[j] == op.page {
      RecentAgain(before, op, j);
      DescendingMoved(before, op, r, j);
      MovedPrefix(r, j, |r|);
      assert r[..|r|] == r && Moved(r, j)[..|r|] == Moved(r, j);
    } else {
      RecentNew(before, op);
      DescendingNew(before, op, r);
    }
  }

  lemma DescendingNew(before: seq<Op>, op: Op, r: seq<nat>)
    requires Descending(before, r) && UsedPages(before, r) && UsedNow(before, op) && op.page !in r
    ensures Descending(before + [op], [op.page] + r) && UsedPages(before + [op], [op.page] + r)
  {
    hide LastUse;
  }

  lemma DescendingMoved(before: seq<Op>, op: Op, r: seq<nat>, j: nat)
    requires Descending(before, r) && j < |r| && r[j] == op.page && UsedNow(before, op)
    ensures Descending(before + [op], Moved(r, j))
  {
    hide LastUse, Moved;
    DescendingDistinct(before, r, j);
    var r' := Moved(r, j);
    forall a, b | 0 <= a < b < |r'|
      ensures LastUse(before + [op], r'[a]) > LastUse(before + [op], r'[b])
    {
      var b' := if b <= j then b - 1 else b;
      assert r'[b] == r[b'] && b' != j;
      if a > 0 {
        var a' := if a <= j then a - 1 else a;
        assert r'[a] == r[a'] && a' < b' && a' != j;
      }
    }
  }

  // ----- The stack property -----

  // The k most recently used pages are the resident ones, and the frames know their last use.
  ghost predicate Holds(trace: seq<Op>, frames: seq<Pte>, pages: seq<nat>) {
    && |frames| == |pages|
    && (forall page :: Resident(frames, page) <==> page in pages)
    && forall i :: 0 <= i < |frames| ==> frames[i].lastAccessTime == LastUse(trace, frames[i].page)
  }

  // After any trace the frames hold, each once, exactly the m most recently used pages.
  lemma {:induction false} LruHoldsMostRecent(m: nat, trace: seq<Op>)
    requires 0 < m
    ensures
      var r := Run(m, Lru, trace);
      var recent := Recent(trace);
      && r.Some? && Distinct(r.value.frames)
      && Holds(trace, r.value.frames, recent[..Min(m, |recent|)])
  {
    RunKeeps(m, Lru, trace);
    if trace != [] {
      var before, op := trace[..|trace| - 1], trace[|trace| - 1];
      assert trace == before + [op];
      LruHoldsMostRecent(m, before);
      RunKeeps(m, Lru, before);
      LruStep(m, before, Run(m, Lru, before).value, op);
    }
  }

  lemma LruStep(m: nat, before: seq<Op>, s: Sim, op: Op)
    requires 0 < m && Inv(m, s) && s.time == |before|
    requires Holds(before, s.frames, Recent(before)[..Min(m, |Recent(before)|)])
    ensures
      var recent := Recent(before + [op]);
      Holds(before + [op], Access(m, Lru, s, op).value.frames, recent[..Min(m, |recent|)])
  {
    hide LastUse, Recent, Descending, Moved, UsedNow, UsedPages, Resident, Inv, Access;
    RecentIsByLastUse(before);
    AllUsedNow(before, op);
    var r := Recent(before);
    var top := r[..Min(m, |r|)];
    if Resident(s.frames, op.page) {
      var j :| 0 <= j < |top| && top[j] == op.page;
      RecentAgain(before, op, j);
      MovedPrefix(r, j, |top|);
      LruHit(m, before, s, op, top, Moved(r, j)[..|top|]);
    } else if |s.frames| < m {
      assert top == r;
      RecentNew(before, op);
      LruAdd(m, before, s, op, r);
      assert ([op.page] + r)[..Min(m, |r| + 1)] == [op.page] + r;
    } else {
      FrontAfterMiss(m, before, op);
      DescendingPrefix(before, r, m);
      LruEvict(m, before, s, op, top);
    }
  }

  lemma DescendingPrefix(trace: seq<Op>, r: seq<nat>, m: nat)
    requires Descending(trace, r) && m <= |r|
    ensures Descending(trace, r[..m])
  {
    hide LastUse;
  }

  lemma InPrefix(r: seq<nat>, m: nat, j: nat)
    requires j < |r| && m <= |r|
    ensures j < m ==> r[j] in r[..m]
  {
    if j < m {
      assert r[..m][j] == r[j];
    }
  }

  // A page that is not among the first m pushes the m-th out of them.
  lemma FrontAfterMiss(m: nat, before: seq<Op>, op: Op)
    requires 0 < m <= |Recent(before)| && Descending(before, Recent(before)) && op.page !in Recent(before)[..m]
    ensures |Recent(before + [op])| >= m
    ensures Recent(before + [op])[..m] == [op.page] + Recent(before)[..m - 1]
  {
    hide LastUse, Recent, Descending;
    var r := Recent(before);
    if op.page in r {
      var j :| 0 <= j < |r| && r[j] == op.page;
      InPrefix(r, m, j);
      RecentAgain(before, op, j);
    } else {
      RecentNew(before, op);
    }
  }

  // The pages of the frames decide which pages are resident.
  lemma PagesDecide(frames: seq<Pte>, page: nat, i: nat)
    requires i < |frames| && frames[i].page == page
    ensures Resident(frames, page)
  {
  }

  lemma LruHit(m: nat, before: seq<Op>, s: Sim, op: Op, top: seq<nat>, top': seq<nat>)
    requires 0 < m && Inv(m, s) && s.time == |before| && Resident(s.frames, op.page) && UsedNow(before, op)
    requires Holds(before, s.frames, top) && |top'| == |top|
    requires forall page :: page in top' <==> page in top
    ensures Holds(before + [op], Access(m, Lru, s, op).value.frames, top')
  {
    hide LastUse, Find, Replace, StatusOk;
    FindIsResident(s.frames, op.page);
    var frames' := Access(m, Lru, s, op).value.frames;
    assert forall i :: 0 <= i < |frames'| ==> frames'[i].page == s.frames[i].page;
    forall page
      ensures Resident(frames', page) <==> Resident(s.frames, page)
    {
      if Resident(s.frames, page) {
        var i :| 0 <= i < |s.frames| && s.frames[i].page == page;
        PagesDecide(frames', page, i);
      }
    }
  }

  lemma LruAdd(m: nat, before: seq<Op>, s: Sim, op: Op, r: seq<nat>)
    requires 0 < m && Inv(m, s) && s.time == |before| && !Resident(s.frames, op.page) && |s.frames| < m
        && UsedNow(before, op)
    requires Holds(before, s.frames, r)
    ensures Holds(before + [op], Access(m, Lru, s, op).value.frames, [op.page] + r)
  {
    hide LastUse, Find, Replace, StatusOk;
    FindIsResident(s.frames, op.page);
    var frames' := Access(m, Lru, s, op).value.frames;
    PagesDecide(frames', op.page, |s.frames|);
    forall page
      ensures Resident(frames', page) <==> page == op.page || Resident(s.frames, page)
    {
      if Resident(s.frames, page) {
        var i :| 0 <= i < |s.frames| && s.frames[i].page == page;
        PagesDecide(frames', page, i);
      }
    }
  }

  // Storing a new page in frame v swaps that one page.
  lemma StoreSwaps(frames: seq<Pte>, v: nat, pte: Pte)
    requires v < |frames| && Distinct(frames) && !Resident(frames, pte.page)
    ensures forall page :: Resident(frames[v := pte], page) <==>
        page == pte.page || (Resident(frames, page) && page != frames[v].page)
  {
    var frames' := frames[v := pte];
    forall page
      ensures Resident(frames', page) <==> page == pte.page || (Resident(frames, page) && page != frames[v].page)
    {
      PagesDecide(frames', pte.page, v);
      if Resident(frames, page) && page != frames[v].page {
        var i :| 0 <= i < |frames| && frames[i].page == page;
        PagesDecide(frames', page, i);
      }
      if Resident(frames', page) && page != pte.page {
        var i :| 0 <= i < |frames| && frames'[i].page == page;
        PagesDecide(frames, page, i);
      }
    }
  }

  // Resetting the flags changes neither the pages nor the times.
  lemma ResetKeepsPages(m: nat, before: seq<Op>, frames: seq<Pte>, time: int, top: seq<nat>)
    requires Distinct(frames) && Holds(before, frames, top)
    ensures Distinct(BeforeReplace(m, frames, time)) && Holds(before, BeforeReplace(m, frames, time), top)
    ensures forall page :: Resident(BeforeReplace(m, frames, time), page) <==> Resident(frames, page)
  {
    hide LastUse;
    var start := BeforeReplace(m, frames, time);
    assert forall i :: 0 <= i < |frames| ==>
        start[i].page == frames[i].page && start[i].lastAccessTime == frames[i].lastAccessTime;
    forall page
      ensures Resident(start, page) <==> Resident(frames, page)
    {
      if Resident(frames, page) {
        var i :| 0 <= i < |frames| && frames[i].page == page;
        PagesDecide(start, page, i);
      }
    }
  }

  lemma LruEvict(m: nat, before: seq<Op>, s: Sim, op: Op, top: seq<nat>)
    requires 0 < m && Inv(m, s) && s.time == |before| && !Resident(s.frames, op.page) && |s.frames| == m
        && UsedNow(before, op)
    requires Holds(before, s.frames, top) && Descending(before, top)
    ensures Holds(before + [op], Access(m, Lru, s, op).value.frames, [op.page] + top[..m - 1])
  {
    hide LastUse, Find, Earliest, StatusOk, IsEarliest, Descending, Resident, BeforeReplace, SecondChance, NotRecent;
    FindIsResident(s.frames, op.page);
    var t := s.time + 1;
    var start := BeforeReplace(m, s.frames, t);
    ResetKeepsPages(m, before, s.frames, t, top);
    var v := Earliest(start, t);
    EarliestFacts(start, t);
    var pte := NewPte(op, t);
    var frames' := start[v := pte];
    assert Access(m, Lru, s, op).value.frames == frames';
    hide Access, Replace;
    VictimIsLast(before, start, t, v, top);
    StoreSwaps(start, v, pte);
    DescendingDistinct(before, top, m - 1);
    assert top == top[..m - 1] + [top[m - 1]];
    forall i | 0 <= i < m
      ensures frames'[i].lastAccessTime == LastUse(before + [op], frames'[i].page)
    {
      if i != v {
        PagesDecide(start, start[i].page, i);
      }
    }
    forall page
      ensures Resident(frames', page) <==> page in [op.page] + top[..m - 1]
    {
      assert Resident(start, page) <==> page in top;
      assert Resident(frames', page) <==> page == op.page || (Resident(start, page) && page != top[m - 1]);
      assert page in [op.page] + top[..m - 1] <==> page == op.page || page in top[..m - 1];
      assert page in top[..m - 1] <==> (page in top && page != top[m - 1]);
    }
  }

  // algo_lru picks the page at the end of the list.
  lemma VictimIsLast(before: seq<Op>, frames: seq<Pte>, time: int, v: nat, r: seq<nat>)
    requires v < |frames| && |r| == |frames| && IsEarliest(frames, time, v) && time == |before| + 1
    requires Descending(before, r)
    requires forall page :: page in r <==> Resident(frames, page)
    requires forall i :: 0 <= i < |frames| ==> frames[i].lastAccessTime == LastUse(before, frames[i].page)
    ensures frames[v].page == r[|r| - 1]
  {
    var last := r[|r| - 1];
    assert last in r;
    var w :| 0 <= w < |frames| && frames[w].page == last;
    assert frames[w].lastAccessTime < time;
    PagesDecide(frames, frames[v].page, v);
    assert frames[v].page in r;
  }

  // With one more frame no page is lost and no fault is added, whatever the trace.
  lemma {:induction false} LruInclusion(m: nat, trace: seq<Op>)
    requires 0 < m
    ensures
      var few, many := Run(m, Lru, trace), Run(m + 1, Lru, trace);
      && few.Some? && many.Some?
      && (forall page :: Resident(few.value.frames, page) ==> Resident(many.value.frames, page))
      && many.value.faults <= few.value.faults
      && many.value.writes <= few.value.writes
  {
    hide Access, Recent;
    LruHoldsMostRecent(m, trace);
    LruHoldsMostRecent(m + 1, trace);
    var recent := Recent(trace);
    forall page | Resident(Run(m, Lru, trace).value.frames, page)
      ensures Resident(Run(m + 1, Lru, trace).value.frames, page)
    {
      assert page in recent[..Min(m, |recent|)];
      assert page in recent[..Min(m + 1, |recent|)];
    }
    if trace != [] {
      var before, op := trace[..|trace| - 1], trace[|trace| - 1];
      LruInclusion(m, before);
      RunKeeps(m, Lru, before);
      RunKeeps(m + 1, Lru, before);
      AccessKeeps(m, Lru, Run(m, Lru, before).value, op);
      AccessKeeps(m + 1, Lru, Run(m + 1, Lru, before).value, op);
    }
  }

  // Faults never increase from any memory size to any larger one.
  lemma {:induction false} LruFaultsMonotone(m: nat, m': nat, trace: seq<Op>)
    requires 0 < m <= m'
    ensures Run(m, Lru, trace).Some? && Run(m', Lru, trace).Some?
    ensures Run(m', Lru, trace).value.faults <= Run(m, Lru, trace).value.faults
    decreases m'
  {
    hide Run;
    if m < m' {
      LruFaultsMonotone(m, m' - 1, trace);
      LruInclusion(m' - 1, trace);
    } else {
      LruInclusion(m, trace);
    }
  }
}
