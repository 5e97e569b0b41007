/**
 The buffer's fields as the program keeps them, with SIGNAL and the critical sections of
 deposit and consume as methods on them. Proved against the steps of BufferSpec.
 */
module BufferProgram {
  import opened BufferSpec

  class Lbuf {
    const n: nat
    const c: nat
    const buffer: array<int>
    const pendingReads: array2<int>
    const nextConsume: array<nat>
    var nextWriteIndex: nat
    var waitForDeposit: int
    const waitForRead: array<int>
    var nW: int
    const nR: array<int>
    var e: int
    var sW: int
    const sR: array<int>

    ghost predicate Valid()
      reads this, nextConsume
    {
      && n > 0
      && buffer.Length == waitForRead.Length == nR.Length == sR.Length == n
      && pendingReads.Length0 == n && pendingReads.Length1 == c
      && nextConsume.Length == c
      && buffer != waitForRead && buffer != nR && buffer != sR
      && waitForRead != nR && waitForRead != sR && nR != sR
      && nextConsume as object != buffer && nextConsume as object != waitForRead
      && nextConsume as object != nR && nextConsume as object != sR
      && nextWriteIndex < n
      && forall j :: 0 <= j < c ==> nextConsume[j] < n
    }

    ghost function Marks(i: nat): seq<int>
      requires i < pendingReads.Length0
      reads pendingReads
    {
      seq(pendingReads.Length1, j requires 0 <= j < pendingReads.Length1 reads pendingReads => pendingReads[i, j])
    }

    ghost function View(): Shared
      reads this, buffer, pendingReads, nextConsume, waitForRead, nR, sR
    {
      Shared(buffer[..],
             seq(pendingReads.Length0, i requires 0 <= i < pendingReads.Length0 reads pendingReads => Marks(i)),
             nextConsume[..], nextWriteIndex, waitForDeposit, waitForRead[..], nW, nR[..], e, sW, sR[..])
    }

    lemma ViewSized()
      requires Valid()
      ensures Sized(View(), n, c)
    {
    }

    constructor (n: nat, c: nat)
      requires n > 0
      ensures Valid() && View() == Create(n, c) && this.n == n && this.c == c
      ensures fresh(buffer) && fresh(pendingReads) && fresh(nextConsume)
      ensures fresh(waitForRead) && fresh(nR) && fresh(sR)
    {
      this.n, this.c := n, c;
      buffer := new int[n](_ => 0);
      pendingReads := new int[n, c]((_, _) => 0);
      nextConsume := new nat[c](_ => 0);
      nextWriteIndex, waitForDeposit, nW, e, sW := 0, 0, 0, 1, 0;
      waitForRead := new int[n](_ => 0);
      nR := new int[n](_ => 0);
      sR := new int[n](_ => 0);
      new;
      assert View().buffer == seq(n, i => 0) && View().waitForRead == seq(n, i => 0);
      assert View().nR == seq(n, i => 0) && View().sR == seq(n, i => 0);
      assert View().nextConsume == seq(c, j => 0);
      assert forall i :: 0 <= i < n ==> Marks(i) == seq(c, j => 0);
      assert View().pending == seq(n, i => seq(c, j => 0));
    }

    // Whether no consumer has position `i` still to read.
    method IsFree(i: nat) returns (free: bool)
      requires Valid() && i < n
      ensures free <==> Zero(View().pending[i])
      ensures free <==> forall j :: 0 <= j < c ==> pendingReads[i, j] == 0
    {
      for j := 0 to c
        invariant forall k :: 0 <= k < j ==> pendingReads[i, k] == 0
      {
        if pendingReads[i, j] != 0 {
          assert View().pending[i][j] != 0;
          return false;
        }
      }
      return true;
    }

    // SIGNAL: the loops over positions and consumers look at the same counter c times over.
    method Signal()
      requires Valid()
      modifies this, waitForRead, sR
      ensures Valid() && View() == BufferSpec.Signal(old(View()))
    {
      ghost var was := View();
      var freeSlot := IsFree(nextWriteIndex);
      for i := 0 to n
        invariant Valid() && View() == was
        invariant c > 0 && nW == 0 ==> forall k :: 0 <= k < i ==> was.waitForRead[k] <= 0
      {
        for j := 0 to c
          invariant Valid() && View() == was
          invariant j > 0 && nW == 0 ==> was.waitForRead[i] <= 0
        {
          if nW == 0 && waitForRead[i] > 0 {
            assert FirstWaiting(was.waitForRead, 0) == i;
            waitForRead[i] := waitForRead[i] - 1;
            sR[i] := sR[i] + 1;
            assert View().pending == was.pending;
            assert waitForRead[..] == was.waitForRead[i := was.waitForRead[i] - 1];
            assert sR[..] == was.sR[i := was.sR[i] + 1];
            return;
          }
        }
      }
      if freeSlot && nW == 0 && nR[nextWriteIndex] == 0 && waitForDeposit > 0 {
        waitForDeposit := waitForDeposit - 1;
        sW := sW + 1;
      } else {
        e := e + 1;
      }
      assert View().pending == was.pending;
    }

    // ----- the critical sections of lbuf_deposit -----

    // With the entry semaphore taken: park, or become an active writer and pass the baton.
    method DepositLook(ghost p: Producer) returns (park: bool)
      requires Valid() && p.pc.Checking? && p.todo != []
      modifies this, waitForRead, sR
      ensures Valid() && Sized(old(View()), n, c)
      ensures (View(), p.(pc := if park then Parked else Indexing)) == ProducerStep(old(View()), p, n, c)
      ensures park <==> exists j :: 0 <= j < c && old(pendingReads[nextWriteIndex, j]) != 0
    {
      ViewSized();
      ghost var was := View();
      var free := IsFree(nextWriteIndex);
      park := !free;
      if park {
        waitForDeposit := waitForDeposit + 1;
        e := e + 1;
        assert View().pending == was.pending;
      } else {
        DepositBegin(Producer(Woken, p.todo));
      }
    }

    // After the wait at sW.
    method DepositBegin(ghost p: Producer)
      requires Valid() && p.pc.Woken? && p.todo != []
      modifies this, waitForRead, sR
      ensures Valid() && Sized(old(View()), n, c)
      ensures (View(), p.(pc := Indexing)) == ProducerStep(old(View()), p, n, c)
    {
      ViewSized();
      ghost var was := View();
      nW := nW + 1;
      assert View() == was.(nW := was.nW + 1);
      Signal();
    }

    // The store, between the two critical sections.
    method DepositStore(ghost p: Producer, at: nat, data: int)
      requires Valid() && p.todo != [] && p.pc == Storing(at) && at < n && data == p.todo[0]
      modifies buffer
      ensures Valid() && Sized(old(View()), n, c)
      ensures (View(), p.(pc := Stored(at))) == ProducerStep(old(View()), p, n, c)
    {
      ViewSized();
      ghost var was := View();
      buffer[at] := data;
      assert buffer[..] == was.buffer[at := data];
      assert View().pending == was.pending;
    }

    // Marks the position for every consumer, advances the write index, passes the baton.
    method DepositEnd(ghost p: Producer, at: nat)
      requires Valid() && p.todo != [] && p.pc == Finishing(at) && at < n
      modifies this, pendingReads, waitForRead, sR
      ensures Valid() && Sized(old(View()), n, c)
      ensures (View(), Producer(Outside, p.todo[1..])) == ProducerStep(old(View()), p, n, c)
      ensures forall j :: 0 <= j < c ==> pendingReads[at, j] == 1
    {
      ViewSized();
      ghost var was := View();
      nW := nW - 1;
      for j := 0 to c
        invariant Valid() && nW == was.nW - 1 && nextWriteIndex == was.nextWrite
        invariant e == was.e && sW == was.sW && waitForDeposit == was.waitForDeposit
        invariant waitForRead[..] == was.waitForRead && sR[..] == was.sR
        invariant forall k :: 0 <= k < j ==> pendingReads[at, k] == 1
        invariant forall i, k :: 0 <= i < n && i != at && 0 <= k < c ==> pendingReads[i, k] == was.pending[i][k]
      {
        pendingReads[at, j] := 1;
      }
      nextWriteIndex := nextWriteIndex + 1;
      if nextWriteIndex == n {
        nextWriteIndex := 0;
      }
      assert Marks(at) == seq(c, j => 1);
      assert forall i :: 0 <= i < n && i != at ==> Marks(i) == was.pending[i];
      assert View().pending == was.pending[at := seq(c, j => 1)];
      Signal();
    }

    // ----- the critical sections of lbuf_consume -----

    // With the entry semaphore taken: sleep on the next position, or start reading it.
    method ConsumeLook(ghost k: Consumer, t: nat) returns (at: nat, sleep: bool)
      requires Valid() && t < c && k.pc.Looking? && k.left > 0
      modifies this, nextConsume, waitForRead, nR, sR
      ensures Valid() && Sized(old(View()), n, c) && at < n
      ensures (View(), k.(pc := if sleep then Asleep(at) else Reading(at))) == ConsumerStep(old(View()), k, t, n, c)
    {
      ViewSized();
      ghost var was := View();
      at := nextConsume[t];
      nextConsume[t] := nextConsume[t] + 1;
      if nextConsume[t] == n {
        nextConsume[t] := 0;
      }
      assert nextConsume[..] == was.nextConsume[t := Next(at, n)];
      assert was.pending[at][t] == pendingReads[at, t];
      sleep := pendingReads[at, t] == 0;
      if sleep {
        waitForRead[at] := waitForRead[at] + 1;
        e := e + 1;
        assert waitForRead[..] == was.waitForRead[at := was.waitForRead[at] + 1];
        assert View().pending == was.pending;
      } else {
        nR[at] := nR[at] + 1;
        assert nR[..] == was.nR[at := was.nR[at] + 1];
        assert View().pending == was.pending;
        Signal();
      }
    }

    // After the wait at sR.
    method ConsumeBegin(ghost k: Consumer, at: nat)
      requires Valid() && at < n && k.pc == Roused(at) && k.left > 0 && c > 0
      modifies this, waitForRead, nR, sR
      ensures Valid() && Sized(old(View()), n, c)
      ensures (View(), k.(pc := Reading(at))) == ConsumerStep(old(View()), k, 0, n, c)
    {
      ViewSized();
      ghost var was := View();
      nR[at] := nR[at] + 1;
      assert nR[..] == was.nR[at := was.nR[at] + 1];
      assert View().pending == was.pending;
      Signal();
    }

    // Gives the position up and passes the baton.
    method ConsumeEnd(ghost k: Consumer, at: nat, t: nat, data: int)
      requires Valid() && at < n && t < c && k.pc == Leaving(at, data) && k.left > 0
      modifies this, pendingReads, waitForRead, nR, sR
      ensures Valid() && Sized(old(View()), n, c)
      ensures (View(), Consumer(Away, k.left - 1, k.got + [data])) == ConsumerStep(old(View()), k, t, n, c)
    {
      ViewSized();
      ghost var was := View();
      nR[at] := nR[at] - 1;
      pendingReads[at, t] := pendingReads[at, t] - 1;
      assert nR[..] == was.nR[at := was.nR[at] - 1];
      assert Marks(at) == was.pending[at][t := was.pending[at][t] - 1];
      assert forall i :: 0 <= i < n && i != at ==> Marks(i) == was.pending[i];
      assert View().pending == was.pending[at := was.pending[at][t := was.pending[at][t] - 1]];
      Signal();
    }
  }
}
