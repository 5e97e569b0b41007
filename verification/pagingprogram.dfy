/**
 The simulator's state as the program keeps it: the frame list and the counters, with one
 simulated access and the three replacement algorithms as methods. Proved against the
 functions of Paging and PagingSim.
 */
module PagingProgram {
  import opened Base
  import opened Paging
  import opened PagingSim

  function Pow2(n: nat): (p: nat)
    ensures p > 0
  {
    if n == 0 then 1 else 2 * Pow2(n - 1)
  }

  // The position of the highest set bit.
  method GetNeededBits(value: nat) returns (bits: nat)
    requires value > 0
    ensures Pow2(bits) <= value < Pow2(bits + 1)
  {
    bits := 0;
    var v := value;
    while v / 2 != 0
      invariant v * Pow2(bits) <= value < (v + 1) * Pow2(bits)
      invariant v > 0
      decreases v
    {
      HalveKeeps(value, v, Pow2(bits));
      v := v / 2;
      bits := bits + 1;
    }
    assert v == 1;
  }

  lemma HalveKeeps(value: nat, v: nat, p: nat)
    requires v * p <= value < (v + 1) * p
    ensures (v / 2) * (2 * p) <= value < (v / 2 + 1) * (2 * p)
  {
    assert v == v / 2 * 2 + v % 2;
    assert v * p == (v / 2) * (2 * p) + (v % 2) * p;
    if v % 2 == 1 {
      assert (v + 1) * p == (v / 2 + 1) * (2 * p);
    } else {
      assert (v / 2 + 1) * (2 * p) == v * p + 2 * p;
    }
  }

  class Simulation {
    const maxPages: nat
    const pageSize: nat
    const algorithm: Algorithm
    var frames: seq<Pte>
    var time: nat
    var pageFaults: nat
    var pageWrites: nat
    var lastFlagResetTime: int

    ghost predicate Valid()
      reads this
    {
      maxPages > 0 && pageSize > 0 && lastFlagResetTime == -1 && Inv(maxPages, State())
    }

    ghost function State(): Sim
      reads this
    {
      Sim(frames, time, pageFaults, pageWrites)
    }

    constructor (pageSizeKB: nat, physicalMemorySizeKB: nat, algorithm: Algorithm)
      requires 8 <= pageSizeKB <= 32 && 128 <= physicalMemorySizeKB <= 16 * 1024
      ensures Valid() && State() == START
      ensures pageSize == pageSizeKB && maxPages == physicalMemorySizeKB / pageSizeKB && this.algorithm == algorithm
    {
      pageSize := pageSizeKB;
      maxPages := physicalMemorySizeKB / pageSizeKB;
      this.algorithm := algorithm;
      frames, time, pageFaults, pageWrites, lastFlagResetTime := [], 0, 0, 0, -1;
    }

    // The scan both algo_lru and algo_sec start with.
    method FindEarliest() returns (earliest: nat)
      requires frames != []
      ensures earliest == Earliest(frames, time)
    {
      var earliestTime: int := time;
      earliest := 0;
      var i := 0;
      while i < |frames|
        invariant i <= |frames| && earliest < |frames|
        invariant EarliestFrom(frames, earliestTime, i, earliest) == Earliest(frames, time)
      {
        if frames[i].lastAccessTime < earliestTime {
          earliest := i;
          earliestTime := frames[i].lastAccessTime;
        }
        i := i + 1;
      }
    }

    method AlgoLru(pte: Pte)
      requires frames != []
      modifies `frames
      ensures Replace(Lru, old(frames), pte, time, 0) == Some(frames)
    {
      var earliest := FindEarliest();
      frames := frames[earliest := pte];
    }

    method AlgoSec(pte: Pte)
      requires frames != []
      modifies `frames
      ensures Replace(Sec, old(frames), pte, time, 0) == Some(frames)
      decreases SetBits(frames)
    {
      var earliest := FindEarliest();
      if frames[earliest].rBit {
        ClearLowers(frames, earliest, time);
        frames := frames[earliest := frames[earliest].(rBit := false, lastAccessTime := time)];
        AlgoSec(pte);
      } else {
        frames := frames[earliest := pte];
      }
    }

    // The counts of the four classes, and the random one of the lowest; false is the failure exit.
    method AlgoNru(pte: Pte, draw: nat) returns (ok: bool)
      requires frames != []
      modifies `frames
      ensures ok <==> Replace(Nru, old(frames), pte, time, draw).Some?
      ensures if ok then Replace(Nru, old(frames), pte, time, draw) == Some(frames) else frames == old(frames)
    {
      var cat0, cat1, cat2, cat3 := 0, 0, 0, 0;
      var i := 0;
      while i < |frames|
        invariant i <= |frames|
        invariant cat0 + CountStatus(frames[i..], 0) == CountStatus(frames, 0)
        invariant cat1 + CountStatus(frames[i..], MODIFIED) == CountStatus(frames, MODIFIED)
        invariant cat2 + CountStatus(frames[i..], REFERENCED) == CountStatus(frames, REFERENCED)
        invariant cat3 + CountStatus(frames[i..], REFERENCED + MODIFIED) == CountStatus(frames, REFERENCED + MODIFIED)
      {
        assert frames[i..][1..] == frames[i + 1..];
        var status := frames[i].status;
        if status == 0 {
          cat0 := cat0 + 1;
        } else if status == MODIFIED {
          cat1 := cat1 + 1;
        } else if status == REFERENCED {
          cat2 := cat2 + 1;
        } else if status == REFERENCED + MODIFIED {
          cat3 := cat3 + 1;
        }
        i := i + 1;
      }
      assert frames[|frames|..] == [];
      var chosenStatus, randomIndex := -1, -1;
      if cat0 > 0 {
        chosenStatus, randomIndex := 0, draw % cat0;
      } else if cat1 > 0 {
        chosenStatus, randomIndex := MODIFIED, draw % cat1;
      } else if cat2 > 0 {
        chosenStatus, randomIndex := REFERENCED, draw % cat2;
      } else if cat3 > 0 {
        chosenStatus, randomIndex := REFERENCED + MODIFIED, draw % cat3;
      }
      assert chosenStatus == LowestClass(frames);
      ok := EvictNth(pte, chosenStatus, randomIndex);
      if randomIndex >= 0 {
        NthFacts(old(frames), chosenStatus, randomIndex);
      }
    }

    // The loop that looks for the chosen page of the class.
    method EvictNth(pte: Pte, chosenStatus: int, randomIndex: int) returns (ok: bool)
      requires randomIndex >= -1
      modifies `frames
      ensures ok <==> randomIndex >= 0 && Nth(old(frames), chosenStatus, randomIndex) < |old(frames)|
      ensures frames == if ok then old(frames)[Nth(old(frames), chosenStatus, randomIndex) := pte] else old(frames)
    {
      var foundStatusCounter := 0;
      var i := 0;
      while i < |frames|
        invariant i <= |frames| && frames == old(frames) && foundStatusCounter >= 0
        invariant randomIndex >= 0 ==>
            foundStatusCounter <= randomIndex
            && Nth(frames, chosenStatus, randomIndex)
               == i + Nth(frames[i..], chosenStatus, randomIndex - foundStatusCounter)
      {
        assert frames[i..][1..] == frames[i + 1..];
        if frames[i].status == chosenStatus {
          if randomIndex == foundStatusCounter {
            frames := frames[i := pte];
            return true;
          }
          foundStatusCounter := foundStatusCounter + 1;
        }
        i := i + 1;
      }
      return false;
    }

    method ResetAllFlags()
      modifies `frames
      ensures frames == ResetFlags(old(frames))
    {
      var i := 0;
      while i < |frames|
        invariant i <= |frames| == |old(frames)|
        invariant forall k :: 0 <= k < i ==> frames[k] == old(frames)[k].(status := 0)
        invariant forall k :: i <= k < |frames| ==> frames[k] == old(frames)[k]
      {
        frames := frames[i := frames[i].(status := 0)];
        i := i + 1;
      }
    }

    method CreatePte(page: nat, write: bool) returns (pte: Pte)
      modifies `pageWrites
      ensures pte == NewPte(Op(page, write, 0), time)
      ensures pageWrites == old(pageWrites) + if write then 1 else 0
    {
      pte := Pte(page, time, 0, true);
      if write {
        pte := pte.(status := MODIFIED);
        pageWrites := pageWrites + 1;
      }
    }

    method PageFaultReplace(pte: Pte, draw: nat) returns (ok: bool)
      requires frames != []
      modifies `frames, `pageFaults
      ensures pageFaults == old(pageFaults) + 1
      ensures ok <==> Replace(algorithm, old(frames), pte, time, draw).Some?
      ensures ok ==> Replace(algorithm, old(frames), pte, time, draw) == Some(frames)
    {
      pageFaults := pageFaults + 1;
      match algorithm {
        case Lru => AlgoLru(pte); ok := true;
        case Nru => ok := AlgoNru(pte, draw);
        case Sec => AlgoSec(pte); ok := true;
      }
    }

    // The walk along the list, up to the page or the end.
    method FindPage(pageIndex: nat) returns (i: nat)
      ensures i == Find(frames, pageIndex)
    {
      i := 0;
      while i < |frames| && frames[i].page != pageIndex
        invariant i <= |frames|
        invariant Find(frames, pageIndex) == i + Find(frames[i..], pageIndex)
      {
        assert frames[i..][1..] == frames[i + 1..];
        i := i + 1;
      }
    }

    // The end of the access, when the memory is full and the page not in it.
    method Evict(pageIndex: nat, write: bool, draw: nat) returns (ok: bool)
      requires frames != [] && maxPages > 0 && lastFlagResetTime == -1
      modifies `frames, `pageFaults, `pageWrites
      ensures
        var op := Op(pageIndex, write, draw);
        var r := Replace(algorithm, BeforeReplace(maxPages, old(frames), time), NewPte(op, time), time, draw);
        && pageFaults == old(pageFaults) + 1
        && pageWrites == old(pageWrites) + (if write then 1 else 0)
        && (ok <==> r.Some?)
        && (ok ==> r == Some(frames))
    {
      hide Replace, ResetFlags;
      if (lastFlagResetTime == -1 && time > maxPages * 1024)
         || (lastFlagResetTime > 0 && time - lastFlagResetTime > maxPages * 1024) {
        ResetAllFlags();
      }
      var pte := CreatePte(pageIndex, write);
      ok := PageFaultReplace(pte, draw);
    }

    // One line of the trace, once the page number is known.
    method AccessPage(pageIndex: nat, write: bool, draw: nat) returns (ok: bool)
      requires Valid()
      modifies this
      ensures lastFlagResetTime == -1
      ensures
        var r := Access(maxPages, algorithm, old(State()), Op(pageIndex, write, draw));
        (ok <==> r.Some?) && (ok ==> r == Some(State()))
    {
      assert |frames| <= maxPages && lastFlagResetTime == -1 && maxPages > 0;
      hide Valid, Inv, Find, Replace, BeforeReplace;
      time := time + 1;
      ok := true;
      var i := FindPage(pageIndex);
      if i < |frames| {
        frames := frames[i := AccessMemory(frames[i], write)];
      } else if |frames| < maxPages {
        var pte := CreatePte(pageIndex, write);
        frames := frames + [pte];
        pageFaults := pageFaults + 1;
      } else {
        ok := Evict(pageIndex, write, draw);
      }
    }

    lemma AccessSafe(op: Op)
      requires Valid()
      ensures maxPages > 0 && |State().frames| <= maxPages
      ensures Access(maxPages, algorithm, State(), op).Some?
          && Inv(maxPages, Access(maxPages, algorithm, State(), op).value)
    {
      AccessKeeps(maxPages, algorithm, State(), op);
    }

    // One line of the trace. It never fails, and takes the state exactly where Access says.
    method SimulateMemoryAccess(address: nat, write: bool, draw: nat) returns (ok: bool)
      requires Valid()
      modifies this
      ensures Valid() && ok
      ensures exists bits: nat :: Pow2(bits) <= pageSize * 1024 < Pow2(bits + 1)
                && Access(maxPages, algorithm, old(State()), Op(address / Pow2(bits), write, draw)) == Some(State())
    {
      hide Inv, Access, State, Pow2;
      var bits := GetNeededBits(pageSize * 1024);
      var pageIndex := address / Pow2(bits);
      ghost var op := Op(pageIndex, write, draw);
      AccessSafe(op);
      ok := AccessPage(pageIndex, write, draw);
    }

    function AccessMemory(pte: Pte, write: bool): (r: Pte)
      reads this
      ensures r.page == pte.page && r.rBit == pte.rBit && r.lastAccessTime == time
      ensures StatusOk(r.status) && Rank(r.status) == if write then 3 else 2
    {
      pte.(lastAccessTime := time, status := if write then REFERENCED + MODIFIED else REFERENCED)
    }
  }
}
