/**
 The page-replacement simulator: page table entries, one simulated access, and the three
 replacement algorithms as functions of the frames.
 */
module Paging {

  const REFERENCED := 0x01
  const MODIFIED := 0x10

  // `page` stands for the address's page number; the low bits of an address are zero.
  datatype Pte = Pte(page: nat, lastAccessTime: int, status: int, rBit: bool)

  datatype Algorithm = Lru | Nru | Sec

  // ----- algo_lru -----

  // The first frame with the least access time before `time`, or the head if there is none.
  function Earliest(frames: seq<Pte>, time: int): (e: nat)
    requires frames != []
    ensures e < |frames|
  {
    EarliestFrom(frames, time, 0, 0)
  }

  // The scan from frame `i` on, with `best` so far.
  function EarliestFrom(frames: seq<Pte>, time: int, i: nat, best: nat): (e: nat)
    requires best < |frames| && i <= |frames|
    ensures e < |frames|
    decreases |frames| - i
  {
    if i == |frames| then best
    else EarliestFrom(frames, if frames[i].lastAccessTime < time then frames[i].lastAccessTime else time, i + 1,
                      if frames[i].lastAccessTime < time then i else best)
  }

  ghost predicate IsEarliest(frames: seq<Pte>, time: int, e: nat)
    requires e < |frames|
  {
    if exists i :: 0 <= i < |frames| && frames[i].lastAccessTime < time then
      && frames[e].lastAccessTime < time
      && (forall i :: 0 <= i < |frames| ==> frames[e].lastAccessTime <= frames[i].lastAccessTime)
      && (forall i :: 0 <= i < e ==> frames[e].lastAccessTime < frames[i].lastAccessTime)
    else e == 0
  }

  lemma {:induction false} EarliestFromFacts(frames: seq<Pte>, time: int, low: int, i: nat, best: nat)
    requires best < |frames| && i <= |frames| && low <= time
    requires low == (if best < i && frames[best].lastAccessTime < time then frames[best].lastAccessTime else time)
    requires low == time ==> best == 0
    requires forall k :: 0 <= k < i ==> frames[k].lastAccessTime >= low
    requires low < time ==> best < i && forall k :: 0 <= k < best ==> frames[k].lastAccessTime > low
    ensures IsEarliest(frames, time, EarliestFrom(frames, low, i, best))
    decreases |frames| - i
  {
    if i < |frames| {
      var t := frames[i].lastAccessTime;
      EarliestFromFacts(frames, time, if t < low then t else low, i + 1, if t < low then i else best);
    }
  }

  lemma EarliestFacts(frames: seq<Pte>, time: int)
    requires frames != []
    ensures IsEarliest(frames, time, Earliest(frames, time))
  {
    EarliestFromFacts(frames, time, time, 0, 0);
  }

  // ----- algo_sec -----

  function SetBits(frames: seq<Pte>): nat {
    if frames == [] then 0 else SetBits(frames[1..]) + if frames[0].rBit then 1 else 0
  }

  lemma {:induction false} ClearLowers(frames: seq<Pte>, e: nat, time: int)
    requires e < |frames| && frames[e].rBit
    ensures SetBits(Pardon(frames, e, time)) == SetBits(frames) - 1
    decreases |frames|
  {
    if e > 0 {
      ClearLowers(frames[1..], e - 1, time);
      assert Pardon(frames, e, time)[1..] == Pardon(frames[1..], e - 1, time);
    } else {
      assert Pardon(frames, e, time)[1..] == frames[1..];
    }
  }

  // The second chance: the bit is cleared and the page counts as just used.
  function Pardon(frames: seq<Pte>, e: nat, time: int): seq<Pte>
    requires e < |frames|
  {
    frames[e := frames[e].(rBit := false, lastAccessTime := time)]
  }

  lemma {:induction false} SetBitsPush(frames: seq<Pte>, pte: Pte)
    ensures SetBits(frames + [pte]) == SetBits(frames) + if pte.rBit then 1 else 0
    decreases |frames|
  {
    if frames == [] {
      assert frames + [pte] == [pte];
    } else {
      assert (frames + [pte])[1..] == frames[1..] + [pte];
      SetBitsPush(frames[1..], pte);
    }
  }

  // SetBits counts the frames whose bit is set.
  lemma {:induction false} SetBitsCounts(frames: seq<Pte>)
    ensures SetBits(frames) == |set i | 0 <= i < |frames| && frames[i].rBit|
    decreases |frames|
  {
    if frames != [] {
      var last := |frames| - 1;
      var before := frames[..last];
      SetBitsCounts(before);
      SetBitsPush(before, frames[last]);
      assert before + [frames[last]] == frames;
      var all, some := set i | 0 <= i < |frames| && frames[i].rBit, set i | 0 <= i < last && before[i].rBit;
      assert all == some + if frames[last].rBit then {last} else {};
    }
  }

  // The frames when the recursion ends, the frame to evict, and the number of calls made.
  function SecondChance(frames: seq<Pte>, time: int): (r: (seq<Pte>, nat, nat))
    requires frames != []
    ensures |r.0| == |frames| && r.1 < |frames|
    decreases SetBits(frames)
  {
    var e := Earliest(frames, time);
    if frames[e].rBit then
      ClearLowers(frames, e, time);
      var (frames', victim, calls) := SecondChance(Pardon(frames, e, time), time);
      (frames', victim, calls + 1)
    else (frames, e, 1)
  }

  // Frame i comes before frame j: used earlier, or at the same time and further up the list.
  ghost predicate Before(frames: seq<Pte>, i: nat, j: nat)
    requires i < |frames| && j < |frames|
  {
    || frames[i].lastAccessTime < frames[j].lastAccessTime
    || (frames[i].lastAccessTime == frames[j].lastAccessTime && i < j)
  }

  ghost predicate Candidate(frames: seq<Pte>, time: int, i: nat)
    requires i < |frames|
  {
    frames[i].lastAccessTime < time && !frames[i].rBit
  }

  // The victim: the first candidate, or the head when every page has its bit set.
  ghost predicate IsVictim(frames: seq<Pte>, time: int, v: nat)
    requires v < |frames|
  {
    if exists i :: 0 <= i < |frames| && Candidate(frames, time, i) then
      Candidate(frames, time, v) && forall i :: 0 <= i < |frames| && Candidate(frames, time, i) && i != v ==>
          Before(frames, v, i)
    else v == 0
  }

  // Pages passed over: the ones before the victim, or all that were not already pardoned.
  ghost predicate PassedOver(frames: seq<Pte>, time: int, v: nat, i: nat)
    requires v < |frames| && i < |frames|
  {
    frames[i].lastAccessTime < time && (Candidate(frames, time, v) ==> Before(frames, i, v))
  }

  // What a call of algo_sec does, in any state its recursion can be in.
  lemma {:induction false} SecondChanceFacts(frames: seq<Pte>, time: int)
    requires frames != []
    requires forall i :: 0 <= i < |frames| ==> frames[i].lastAccessTime <= time
    requires forall i :: 0 <= i < |frames| && frames[i].lastAccessTime == time ==> !frames[i].rBit
    ensures
      var (frames', v, calls) := SecondChance(frames, time);
      && IsVictim(frames, time, v)
      && calls <= SetBits(frames) + 1
      && forall i :: 0 <= i < |frames| ==>
           frames'[i] == if PassedOver(frames, time, v, i) then frames[i].(rBit := false, lastAccessTime := time)
                         else frames[i]
    decreases SetBits(frames)
  {
    hide Earliest, SetBits;
    EarliestFacts(frames, time);
    var e := Earliest(frames, time);
    if frames[e].rBit {
      ClearLowers(frames, e, time);
      var next := Pardon(frames, e, time);
      SecondChanceFacts(next, time);
      var v := SecondChance(next, time).1;
      assert forall i :: 0 <= i < |frames| && i != e ==> next[i] == frames[i];
      PardonKeepsVictim(frames, time, e, v);
    } else {
      EarliestIsVictim(frames, time, e);
    }
  }

  // Every call but the last clears one bit.
  lemma {:induction false} CallsClearBits(frames: seq<Pte>, time: int)
    requires frames != []
    ensures
      var (frames', _, calls) := SecondChance(frames, time);
      calls == 1 + SetBits(frames) - SetBits(frames')
    decreases SetBits(frames)
  {
    hide Earliest, SetBits;
    var e := Earliest(frames, time);
    if frames[e].rBit {
      ClearLowers(frames, e, time);
      CallsClearBits(Pardon(frames, e, time), time);
    }
  }

  lemma EarliestIsVictim(frames: seq<Pte>, time: int, e: nat)
    requires e < |frames| && IsEarliest(frames, time, e) && !frames[e].rBit
    requires forall i :: 0 <= i < |frames| ==> frames[i].lastAccessTime <= time
    ensures IsVictim(frames, time, e)
    ensures forall i :: 0 <= i < |frames| ==> !PassedOver(frames, time, e, i)
  {
    if frames[e].lastAccessTime < time {
      assert Candidate(frames, time, e);
    }
  }

  lemma PardonKeepsVictim(frames: seq<Pte>, time: int, e: nat, v: nat)
    requires e < |frames| && v < |frames| && IsEarliest(frames, time, e) && frames[e].rBit
    requires forall i :: 0 <= i < |frames| ==> frames[i].lastAccessTime <= time
    requires forall i :: 0 <= i < |frames| && frames[i].lastAccessTime == time ==> !frames[i].rBit
    requires IsVictim(Pardon(frames, e, time), time, v)
    ensures IsVictim(frames, time, v)
    ensures PassedOver(frames, time, v, e) && !PassedOver(Pardon(frames, e, time), time, v, e)
    ensures forall i :: 0 <= i < |frames| && i != e ==>
              (PassedOver(frames, time, v, i) <==> PassedOver(Pardon(frames, e, time), time, v, i))
  {
    var next := Pardon(frames, e, time);
    assert forall i :: 0 <= i < |frames| && i != e ==> next[i] == frames[i];
    assert forall i :: 0 <= i < |frames| ==> (Candidate(next, time, i) <==> Candidate(frames, time, i));
    assert frames[e].lastAccessTime < time;
  }

  // On a page fault every page was used before now: the victim is the first page in order of
  // use with a clear bit, or the head of the list if no bit is clear; exactly the pages
  // before it lose their bit, and there is at most one more call than set bits.
  lemma SecondChanceEvicts(frames: seq<Pte>, time: int)
    requires frames != [] && forall i :: 0 <= i < |frames| ==> frames[i].lastAccessTime < time
    ensures
      var (frames', v, calls) := SecondChance(frames, time);
      && ((forall i :: 0 <= i < |frames| ==> frames[i].rBit) ==> v == 0)
      && ((exists i :: 0 <= i < |frames| && !frames[i].rBit) ==>
            !frames[v].rBit && forall i :: 0 <= i < |frames| && !frames[i].rBit && i != v ==> Before(frames, v, i))
      && (forall i :: 0 <= i < |frames| ==>
            frames'[i] == if !frames[v].rBit ==> Before(frames, i, v)
                          then frames[i].(rBit := false, lastAccessTime := time) else frames[i])
      && calls <= SetBits(frames) + 1
  {
    hide SecondChance, SetBits;
    SecondChanceFacts(frames, time);
    var v := SecondChance(frames, time).1;
    assert forall i :: 0 <= i < |frames| ==> (Candidate(frames, time, i) <==> !frames[i].rBit);
  }

  // ----- algo_nru -----

  // The statuses createPTE and accessMemory ever store.
  predicate StatusOk(status: int) {
    status == 0 || status == MODIFIED || status == REFERENCED || status == REFERENCED + MODIFIED
  }

  // How many frames have the status.
  function CountStatus(frames: seq<Pte>, status: int): (n: nat)
    ensures n <= |frames|
  {
    if frames == [] then 0 else CountStatus(frames[1..], status) + if frames[0].status == status then 1 else 0
  }

  // The lowest class with a page, as its status; -1 if there is none.
  function LowestClass(frames: seq<Pte>): (low: int)
    ensures low >= 0 ==> CountStatus(frames, low) > 0
  {
    if CountStatus(frames, 0) > 0 then 0
    else if CountStatus(frames, MODIFIED) > 0 then MODIFIED
    else if CountStatus(frames, REFERENCED) > 0 then REFERENCED
    else if CountStatus(frames, REFERENCED + MODIFIED) > 0 then REFERENCED + MODIFIED
    else -1
  }

  // The class numbers of the comment in the source, 0 to 3.
  function Rank(status: int): (r: int)
    ensures StatusOk(status) ==> r == 2 * (status % 16) + status / 16
  {
    if status == 0 then 0 else if status == MODIFIED then 1 else if status == REFERENCED then 2 else 3
  }

  // The k-th frame with the status, counting from 0; |frames| if there are not that many.
  function Nth(frames: seq<Pte>, status: int, k: nat): (v: nat)
    ensures v <= |frames|
  {
    if frames == [] then 0
    else if frames[0].status != status then 1 + Nth(frames[1..], status, k)
    else if k == 0 then 0
    else 1 + Nth(frames[1..], status, k - 1)
  }

  lemma {:induction false} NthFacts(frames: seq<Pte>, status: int, k: nat)
    ensures Nth(frames, status, k) < |frames| <==> k < CountStatus(frames, status)
    ensures Nth(frames, status, k) < |frames| ==> frames[Nth(frames, status, k)].status == status
    decreases |frames|
  {
    if frames != [] {
      if frames[0].status != status {
        NthFacts(frames[1..], status, k);
      } else if k > 0 {
        NthFacts(frames[1..], status, k - 1);
      }
    }
  }

  // Every frame with the status is the k-th for some k.
  lemma {:induction false} NthReaches(frames: seq<Pte>, status: int, v: nat) returns (k: nat)
    requires v < |frames| && frames[v].status == status
    ensures k < CountStatus(frames, status) && Nth(frames, status, k) == v
    decreases |frames|
  {
    if v == 0 {
      k := 0;
    } else {
      k := NthReaches(frames[1..], status, v - 1);
      if frames[0].status == status {
        k := k + 1;
      }
    }
  }

  // The frame algo_nru evicts for a random draw; |frames| stands for the failure exit.
  function NotRecent(frames: seq<Pte>, draw: nat): nat {
    var low := LowestClass(frames);
    if low < 0 then |frames| else Nth(frames, low, draw % CountStatus(frames, low))
  }

  lemma {:induction false} SomeClass(frames: seq<Pte>, i: nat)
    requires i < |frames|
    ensures CountStatus(frames, frames[i].status) > 0
    decreases |frames|
  {
    if i > 0 {
      SomeClass(frames[1..], i - 1);
    }
  }

  lemma LowestExists(frames: seq<Pte>)
    requires frames != [] && forall i :: 0 <= i < |frames| ==> StatusOk(frames[i].status)
    ensures LowestClass(frames) >= 0
    ensures forall i :: 0 <= i < |frames| ==> Rank(LowestClass(frames)) <= Rank(frames[i].status)
  {
    hide CountStatus;
    forall i | 0 <= i < |frames|
      ensures Rank(LowestClass(frames)) <= Rank(frames[i].status)
    {
      SomeClass(frames, i);
    }
    SomeClass(frames, 0);
  }

  // With the statuses the simulator stores, every draw evicts a page of the lowest class that
  // has any; the failure exit is unreachable.
  lemma NotRecentEvictsLowest(frames: seq<Pte>, draw: nat)
    requires frames != [] && forall i :: 0 <= i < |frames| ==> StatusOk(frames[i].status)
    ensures NotRecent(frames, draw) < |frames|
    ensures frames[NotRecent(frames, draw)].status == LowestClass(frames)
    ensures forall i :: 0 <= i < |frames| ==> Rank(frames[NotRecent(frames, draw)].status) <= Rank(frames[i].status)
  {
    hide CountStatus, Nth, LowestClass;
    LowestExists(frames);
    var low := LowestClass(frames);
    NthFacts(frames, low, draw % CountStatus(frames, low));
  }

  // Every page of the lowest class can be drawn.
  lemma NotRecentIsFair(frames: seq<Pte>, i: nat) returns (draw: nat)
    requires i < |frames| && frames[i].status == LowestClass(frames) >= 0
    ensures NotRecent(frames, draw) == i
  {
    hide CountStatus, Nth, LowestClass;
    draw := NthReaches(frames, LowestClass(frames), i);
  }

  // With no flag set anywhere the draw picks the frame.
  lemma AllOfOneClass(frames: seq<Pte>, draw: nat)
    requires frames != [] && forall i :: 0 <= i < |frames| ==> frames[i].status == 0
    ensures NotRecent(frames, draw) == draw % |frames|
  {
    CountAll(frames, 0);
    NthOfAll(frames, 0, draw % |frames|);
  }

  lemma {:induction false} CountAll(frames: seq<Pte>, status: int)
    requires forall i :: 0 <= i < |frames| ==> frames[i].status == status
    ensures CountStatus(frames, status) == |frames|
    decreases |frames|
  {
    if frames != [] {
      CountAll(frames[1..], status);
    }
  }

  lemma {:induction false} NthOfAll(frames: seq<Pte>, status: int, k: nat)
    requires k < |frames| && forall i :: 0 <= i < |frames| ==> frames[i].status == status
    ensures Nth(frames, status, k) == k
    decreases |frames|
  {
    if k > 0 {
      NthOfAll(frames[1..], status, k - 1);
    }
  }
}
