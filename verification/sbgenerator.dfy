/**
 The generator as the program runs it: bytes copied into one buffer at a moving index, a
 stack of while addresses, and `end` patching bytes written earlier. Proved against the pass
 `SbCode.Geracod`.
 */
module SbGenerator {
  import opened Base
  import opened Word32
  import opened SbLang
  import opened SbCode

  class Generator {
    const mcodes: array<Byte>
    const enderecoCmplWhiles: array<nat>
    var bytes: nat
    var nwhiles: nat

    ghost predicate Valid()
      reads this, mcodes, enderecoCmplWhiles
    {
      && mcodes as object != enderecoCmplWhiles
      && bytes <= mcodes.Length
      && nwhiles <= enderecoCmplWhiles.Length
      && View().Valid()
    }

    // What has been emitted, and which whiles are open.
    ghost function View(): Emitted
      requires bytes <= mcodes.Length && nwhiles <= enderecoCmplWhiles.Length
      reads this, mcodes, enderecoCmplWhiles
    {
      Emitted(mcodes[..bytes], enderecoCmplWhiles[..nwhiles])
    }

    constructor (capacity: nat, depth: nat)
      ensures Valid() && View() == Emitted([], [])
      ensures fresh(mcodes) && fresh(enderecoCmplWhiles)
      ensures mcodes.Length == capacity && enderecoCmplWhiles.Length == depth
    {
      mcodes := new Byte[capacity];
      enderecoCmplWhiles := new nat[depth];
      bytes, nwhiles := 0, 0;
    }

    // memcpy of `bs` over the buffer at `at`.
    method Copy(at: nat, bs: seq<Byte>)
      requires at + |bs| <= mcodes.Length
      modifies mcodes
      ensures mcodes[..] == Patch(old(mcodes[..]), at, bs)
    {
      ghost var was := mcodes[..];
      for i := 0 to |bs|
        invariant mcodes[..at] == was[..at]
        invariant mcodes[at..at + i] == bs[..i]
        invariant mcodes[at + i..] == was[at + i..]
      {
        mcodes[at + i] := bs[i];
        assert mcodes[at..at + i + 1] == bs[..i + 1];
      }
      assert mcodes[..] == mcodes[..at] + mcodes[at..at + |bs|] + mcodes[at + |bs|..];
    }

    method Append(bs: seq<Byte>)
      requires Valid() && bytes + |bs| <= mcodes.Length
      modifies this`bytes, mcodes
      ensures Valid() && bytes == old(bytes) + |bs|
      ensures View() == Emitted(old(View()).code + bs, old(View()).open)
    {
      ghost var was := View();
      Copy(bytes, bs);
      bytes := bytes + |bs|;
      assert mcodes[..bytes] == was.code + bs;
    }

    // Opens a while at the current address: its je displacement is a placeholder for now.
    method WhileFunc(cond: Operand)
      requires Valid() && bytes + 10 <= mcodes.Length && nwhiles < enderecoCmplWhiles.Length
      modifies this, mcodes, enderecoCmplWhiles
      ensures Valid() && bytes == old(bytes) + 10 && nwhiles == old(nwhiles) + 1
      ensures View() == Emitted(old(View()).code + WhileBytes(cond, PLACEHOLDER),
                                old(View()).open + [old(bytes)])
    {
      ghost var was := View();
      var at := bytes;
      Append(WhileBytes(cond, PLACEHOLDER));
      enderecoCmplWhiles[nwhiles] := at;
      nwhiles := nwhiles + 1;
      assert enderecoCmplWhiles[..nwhiles] == was.open + [at];
    }

    // Closes the last open while: fills in its je and emits the jmp back.
    method EndFunc()
      requires Valid() && nwhiles > 0 && bytes + 5 <= mcodes.Length
      modifies this, mcodes
      ensures Valid() && bytes == old(bytes) + 5 && nwhiles == old(nwhiles) - 1
      ensures Emit(old(View()), End) == Ok(View())
    {
      ghost var was := View();
      nwhiles := nwhiles - 1;
      var w, end := enderecoCmplWhiles[nwhiles], bytes;
      assert w == was.open[|was.open| - 1];
      var je := ToBytes(Wrap(JeRel(w, end)));
      Copy(w + 6, je);
      assert mcodes[..bytes] == Patch(was.code, w + 6, je);
      assert enderecoCmplWhiles[..nwhiles] == was.open[..|was.open| - 1];
      assert View().Valid();
      Append(JmpBytes(JmpRel(w, end)));
    }

    method Statement(s: Stmt) returns (e: Option<Error>)
      requires Valid() && bytes + 16 <= mcodes.Length
      requires s.While? ==> nwhiles < enderecoCmplWhiles.Length
      modifies this, mcodes, enderecoCmplWhiles
      ensures Valid() && bytes <= old(bytes) + 16
      ensures e.None? ==> Emit(old(View()), s) == Ok(View())
      ensures e.Some? ==> Emit(old(View()), s) == Err(e.value)
    {
      e := Check(s);
      if e.None? {
        match s
        case Assign(dst, left, op, right) => Append(AssignBytes(dst, left, op, right));
        case While(cond) => WhileFunc(cond);
        case End =>
          if nwhiles == 0 {
            e := Some(EndWithoutWhile);
          } else {
            EndFunc();
          }
      }
    }

    // The emission loop. On success `size` bytes of the buffer are the function.
    method Run(ss: seq<Stmt>) returns (r: Result<nat, Error>)
      requires Valid() && View() == Emitted([], [])
      requires 6 + 16 * |ss| + 7 <= mcodes.Length
      requires Peak(ss, 0) <= enderecoCmplWhiles.Length
      modifies this, mcodes, enderecoCmplWhiles
      ensures r.Ok? ==> r.value <= mcodes.Length && Geracod(ss) == Ok(mcodes[..r.value])
      ensures r.Err? ==> Geracod(ss) == Err(r.error)
    {
      hide Emit, Check;
      Append(PROLOGO);
      assert View() == Emitted(PROLOGO, []);
      for i := 0 to |ss|
        invariant Valid() && bytes <= 6 + 16 * i
        invariant EmitAll(Emitted(PROLOGO, []), ss) == EmitAll(View(), ss[i..])
        invariant Peak(ss[i..], nwhiles) <= enderecoCmplWhiles.Length
      {
        assert ss[i..][0] == ss[i] && ss[i..][1..] == ss[i + 1..];
        EmitTracks(View(), ss[i]);
        var e := Statement(ss[i]);
        if e.Some? {
          return Err(e.value);
        }
      }
      if nwhiles > 0 {
        return Err(OpenWhiles);
      }
      Append(FINALIZACAO);
      return Ok(bytes);
    }
  }
}
