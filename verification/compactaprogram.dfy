/**
 The writer and the reader as the programs run them: running offsets, bytes appended to the
 file one after another, codes shifted into and out of a byte. Proved against Compacta.
 */
module CompactaProgram {
  import opened Base
  import opened Word32
  import opened Compacta

  // The loops while(o % 2 != 0) o++ and while(o % 4 != 0) o++.
  method PadTo(o: nat, a: nat) returns (r: nat)
    requires a == 1 || a == 2 || a == 4
    ensures r == AlignUp(o, a)
  {
    r := o;
    while !Aligned(r, a)
      invariant o <= r <= AlignUp(o, a)
      decreases AlignUp(o, a) - r
    {
      r := r + 1;
    }
  }

  class PackedFile {
    var arquivo: seq<Byte>
    // The read position, for mostra.
    var pos: nat

    constructor (bytes: seq<Byte>)
      ensures arquivo == bytes && pos == 0
    {
      arquivo, pos := bytes, 0;
    }

    // ----- writing -----

    method Write(bs: seq<Byte>)
      modifies `arquivo
      ensures arquivo == old(arquivo) + bs
    {
      arquivo := arquivo + bs;
    }

    // The bytes at `at`, last to first.
    method WriteReversed(mem: seq<Byte>, at: nat, size: nat)
      requires at + size <= |mem|
      modifies `arquivo
      ensures arquivo == old(arquivo) + Reversed(mem[at..at + size])
    {
      ghost var r := Reversed(mem[at..at + size]);
      var j := size;
      while j > 0
        invariant 0 <= j <= size
        invariant arquivo == old(arquivo) + r[..size - j]
      {
        j := j - 1;
        assert r[..size - j] == r[..size - j - 1] + [mem[at + j]];
        Write([mem[at + j]]);
      }
      assert r[..size] == r;
    }

    method WriteField(mem: seq<Byte>, o: nat, k: Kind, little: bool)
      requires o + Size(k) <= |mem|
      modifies `arquivo
      ensures arquivo == old(arquivo) + FieldBytes(mem, o, k, little)
    {
      if little || k == C {
        Write(mem[o..o + Size(k)]);
        ReversedOne(mem[o..o + Size(k)]);
      } else {
        WriteReversed(mem, o, Size(k));
      }
    }

    // compacta_processaStruct.
    method ProcessaStruct(mem: seq<Byte>, base: nat, campos: seq<Kind>, little: bool)
      requires base + End(campos, 0) <= |mem|
      modifies `arquivo
      ensures arquivo == old(arquivo) + Concat(Fields(mem, base, campos, 0, little))
      ensures HoldsStruct(Fields(mem, base, campos, 0, little), mem, campos, Offsets(campos, 0), base, little)
    {
      hide *;
      FieldsHoldBytes(mem, base, campos, little);
      var memcounter: nat := 0;
      ghost var all := Concat(Fields(mem, base, campos, 0, little));
      assert campos[0..] == campos;
      for i := 0 to |campos|
        invariant base + End(campos[i..], memcounter) <= |mem|
        invariant arquivo + Concat(Fields(mem, base, campos[i..], memcounter, little)) == old(arquivo) + all
      {
        NextField(mem, base, campos, i, memcounter, little);
        ghost var before, rest := arquivo,
            Concat(Fields(mem, base, campos[i + 1..], FieldAt(campos[i], memcounter) + Size(campos[i]), little));
        memcounter := PadToField(campos[i], memcounter);
        WriteField(mem, base + memcounter, campos[i], little);
        assert before + (FieldBytes(mem, base + memcounter, campos[i], little) + rest) == arquivo + rest;
        memcounter := memcounter + Size(campos[i]);
      }
      NoFields(mem, base, campos[|campos|..], memcounter, little);
    }

    static lemma NoFields(mem: seq<Byte>, base: nat, kinds: seq<Kind>, at: nat, little: bool)
      requires kinds == [] && base + End(kinds, at) <= |mem|
      ensures Concat(Fields(mem, base, kinds, at, little)) == []
    {
    }

    method PadToField(k: Kind, o: nat) returns (r: nat)
      ensures r == FieldAt(k, o)
    {
      r := PadTo(o, Size(k));
    }

    static lemma NextField(mem: seq<Byte>, base: nat, campos: seq<Kind>, i: nat, at: nat, little: bool)
      requires i < |campos| && base + End(campos[i..], at) <= |mem|
      ensures
        var k, o := campos[i], FieldAt(campos[i], at);
        && End(campos[i..], at) == End(campos[i + 1..], o + Size(k)) >= o + Size(k)
        && Concat(Fields(mem, base, campos[i..], at, little))
            == FieldBytes(mem, base + o, k, little) + Concat(Fields(mem, base, campos[i + 1..], o + Size(k), little))
    {
      hide AlignUp, Size, FieldBytes;
      assert campos[i..][0] == campos[i] && campos[i..][1..] == campos[i + 1..];
      var rest := Fields(mem, base, campos[i..], at, little);
      assert rest[1..] == Fields(mem, base, campos[i + 1..], FieldAt(campos[i], at) + Size(campos[i]), little);
    }

    static lemma ReversedOne(s: seq<Byte>)
      ensures |s| <= 1 ==> Reversed(s) == s
    {
    }

    // The descriptor bytes; the size of a struct and its widest fields come out beside them.
    method WriteCampos(campos: seq<Kind>) returns (tamstruct: nat, hasS: bool, hasI: bool)
      modifies `arquivo
      ensures arquivo == old(arquivo) + Descriptors(campos)
      ensures tamstruct == End(campos, 0) && (hasS <==> S in campos) && (hasI <==> I in campos)
    {
      hide AlignUp, Descriptor, Descriptors, End;
      tamstruct, hasS, hasI := 0, false, false;
      var i: nat := 0;
      assert campos[0..] == campos && campos[..0] == [];
      while i < |campos|
        invariant arquivo + Descriptors(From(campos, i)) == old(arquivo) + Descriptors(campos)
        invariant End(From(campos, i), tamstruct) == End(campos, 0)
        invariant (hasS <==> S in UpTo(campos, i)) && (hasI <==> I in UpTo(campos, i))
      {
        tamstruct, hasS, hasI := WriteGroup(campos, i, tamstruct, hasS, hasI);
        i := i + 4;
      }
      NoGroup(From(campos, i), tamstruct);
      assert UpTo(campos, i) == campos;
    }

    static lemma NoGroup(kinds: seq<Kind>, at: nat)
      requires kinds == []
      ensures Descriptors(kinds) == [] && End(kinds, at) == at
    {
    }

    static function From(campos: seq<Kind>, i: nat): seq<Kind> {
      if i < |campos| then campos[i..] else []
    }

    static function UpTo(campos: seq<Kind>, i: nat): seq<Kind> {
      if i < |campos| then campos[..i] else campos
    }

    // Four fields, or what is left of the string, make one byte.
    method WriteGroup(campos: seq<Kind>, i: nat, t: nat, hasS: bool, hasI: bool) returns (t': nat, s: bool, n: bool)
      requires i < |campos|
      requires (hasS <==> S in UpTo(campos, i)) && (hasI <==> I in UpTo(campos, i))
      modifies `arquivo
      ensures arquivo + Descriptors(From(campos, i + 4)) == old(arquivo) + Descriptors(From(campos, i))
      ensures End(From(campos, i + 4), t') == End(From(campos, i), t)
      ensures (s <==> S in UpTo(campos, i + 4)) && (n <==> I in UpTo(campos, i + 4))
    {
      hide *;
      ghost var group, was, rest := campos[i..], arquivo, From(campos, i + 4);
      GroupAt(campos, i);
      DescriptorsStep(group, rest);
      var byteatual := 0;
      byteatual, t', s, n := Field(campos, i, byteatual, 64, t, hasS, hasI);
      byteatual, t', s, n := Field(campos, i + 1, byteatual, 16, t', s, n);
      byteatual, t', s, n := Field(campos, i + 2, byteatual, 4, t', s, n);
      byteatual, t', s, n := Field(campos, i + 3, byteatual, 1, t', s, n);
      GroupFacts(campos, i, t, From(campos, i + 4));
      Write([byteatual]);
      assert was + ([byteatual] + Descriptors(rest)) == arquivo + Descriptors(rest);
    }

    static lemma GroupAt(campos: seq<Kind>, i: nat)
      requires i < |campos|
      ensures campos[i..] == From(campos, i) && UpTo(campos, i) == campos[..i]
      ensures From(campos, i + 4) == if |campos| - i <= 4 then [] else campos[i..][4..]
      ensures
        Descriptor(campos[i..]) as int
          == 64 * Code(campos[i]) + 16 * (if i + 1 < |campos| then Code(campos[i + 1]) else 0)
             + 4 * (if i + 2 < |campos| then Code(campos[i + 2]) else 0)
             + if i + 3 < |campos| then Code(campos[i + 3]) else 0
    {
      hide Code;
    }

    // One position of the descriptor byte; past the end of the string it stays zero.
    method Field(campos: seq<Kind>, at: nat, byteatual: nat, place: nat, tamstruct: nat, hasS: bool, hasI: bool)
        returns (b: nat, t: nat, s: bool, i: bool)
      ensures b == byteatual + place * (if at < |campos| then Code(campos[at]) else 0)
      ensures t == if at < |campos| then FieldAt(campos[at], tamstruct) + Size(campos[at]) else tamstruct
      ensures s <==> hasS || (at < |campos| && campos[at] == S)
      ensures i <==> hasI || (at < |campos| && campos[at] == I)
    {
      b, t, s, i := byteatual, tamstruct, hasS, hasI;
      if at < |campos| {
        match campos[at] {
          case C =>
            b := b + place;
            t := t + 1;
          case S =>
            t := PadTo(t, 2);
            s := true;
            b := b + place * 2;
            t := t + 2;
          case I =>
            t := PadTo(t, 4);
            i := true;
            b := b + place * 3;
            t := t + 4;
        }
      }
    }

    // Where four fields, or what is left of the string, bring the offset.
    static lemma GroupFacts(campos: seq<Kind>, i: nat, t: nat, rest: seq<Kind>)
      requires i < |campos| && rest == From(campos, i + 4)
      ensures
        var t1 := FieldAt(campos[i], t) + Size(campos[i]);
        var t2 := if i + 1 < |campos| then FieldAt(campos[i + 1], t1) + Size(campos[i + 1]) else t1;
        var t3 := if i + 2 < |campos| then FieldAt(campos[i + 2], t2) + Size(campos[i + 2]) else t2;
        var t4 := if i + 3 < |campos| then FieldAt(campos[i + 3], t3) + Size(campos[i + 3]) else t3;
        End(campos[i..], t) == End(rest, t4)
      ensures
        forall k: Kind :: k in UpTo(campos, i + 4) <==>
          (k in campos[..i] || campos[i] == k || (i + 1 < |campos| && campos[i + 1] == k)
           || (i + 2 < |campos| && campos[i + 2] == k) || (i + 3 < |campos| && campos[i + 3] == k))
    {
      hide FieldAt, Size;
      var t1 := FieldAt(campos[i], t) + Size(campos[i]);
      assert campos[i..][1..] == campos[i + 1..] && End(campos[i..], t) == End(campos[i + 1..], t1);
      if i + 1 < |campos| {
        var t2 := FieldAt(campos[i + 1], t1) + Size(campos[i + 1]);
        assert campos[i + 1..][1..] == campos[i + 2..] && End(campos[i + 1..], t1) == End(campos[i + 2..], t2);
        if i + 2 < |campos| {
          var t3 := FieldAt(campos[i + 2], t2) + Size(campos[i + 2]);
          assert campos[i + 2..][1..] == campos[i + 3..] && End(campos[i + 2..], t2) == End(campos[i + 3..], t3);
          if i + 3 < |campos| {
            var t4 := FieldAt(campos[i + 3], t3) + Size(campos[i + 3]);
            assert campos[i + 3..][1..] == campos[i + 4..] && End(campos[i + 3..], t3) == End(campos[i + 4..], t4);
          }
        }
      }
      GroupMembers(campos, i);
    }

    static lemma GroupMembers(campos: seq<Kind>, i: nat)
      requires i < |campos|
      ensures
        forall k: Kind :: k in UpTo(campos, i + 4) <==>
          (k in campos[..i] || campos[i] == k || (i + 1 < |campos| && campos[i + 1] == k)
           || (i + 2 < |campos| && campos[i + 2] == k) || (i + 3 < |campos| && campos[i + 3] == k))
    {
      var stop := if i + 4 < |campos| then i + 4 else |campos|;
      var group := campos[i..stop];
      assert group == [campos[i]] + (if i + 1 < stop then [campos[i + 1]] else [])
          + (if i + 2 < stop then [campos[i + 2]] else [])
                      + (if i + 3 < stop then [campos[i + 3]] else []);
      assert UpTo(campos, i + 4) == campos[..i] + group;
    }

    method WritePacked(n: nat, mem: seq<Byte>, campos: seq<Kind>, little: bool)
      requires n * StructSize(campos) <= |mem|
      modifies `arquivo
      ensures arquivo == old(arquivo) + Packed(n, mem, campos, little)
    {
      hide Structs, ConcatAll, Descriptors, StructSize, End;
      Write([n % 256]);
      var numMaxCampos := |campos| % 256;
      if little && numMaxCampos < 128 {
        numMaxCampos := numMaxCampos + 128;
      }
      Write([numMaxCampos]);
      var tamstruct, hasS, hasI := WriteCampos(campos);
      tamstruct := Rounded(campos, tamstruct, hasS, hasI);
      ghost var structs := ConcatAll(Structs(mem, campos, n, 0, little));
      ghost var first := [n % 256, SecondByte(|campos|, little)];
      assert arquivo == old(arquivo) + (first + Descriptors(campos));
      WriteStructs(n, mem, campos, little, tamstruct);
      assert Packed(n, mem, campos, little) == first + Descriptors(campos) + structs;
    }

    // The padding after the last field.
    static method Rounded(campos: seq<Kind>, end: nat, hasS: bool, hasI: bool) returns (tamstruct: nat)
      requires end == End(campos, 0) && (hasS <==> S in campos) && (hasI <==> I in campos)
      ensures tamstruct == StructSize(campos)
    {
      hide End;
      tamstruct := end;
      if hasI && tamstruct % 4 != 0 {
        tamstruct := PadTo(tamstruct, 4);
      } else if hasS && tamstruct % 2 != 0 {
        tamstruct := PadTo(tamstruct, 2);
      }
    }

    method WriteStructs(n: nat, mem: seq<Byte>, campos: seq<Kind>, little: bool, tamstruct: nat)
      requires n * StructSize(campos) <= |mem| && tamstruct == StructSize(campos)
      modifies `arquivo
      ensures arquivo == old(arquivo) + ConcatAll(Structs(mem, campos, n, 0, little))
    {
      hide Concat, Fields, StructSize, End;
      ghost var all := ConcatAll(Structs(mem, campos, n, 0, little));
      for i := 0 to n
        invariant arquivo + ConcatAll(Structs(mem, campos, n, i, little)) == old(arquivo) + all
      {
        StructFits(mem, campos, n, i);
        ghost var rest := Structs(mem, campos, n, i, little);
        assert rest[1..] == Structs(mem, campos, n, i + 1, little);
        assert arquivo + (Concat(rest[0]) + ConcatAll(rest[1..])) == arquivo + Concat(rest[0]) + ConcatAll(rest[1..]);
        ProcessaStruct(mem, i * tamstruct, campos, little);
      }
    }

    // ----- reading -----

    ghost function Rest(): seq<Byte>
      requires pos <= |arquivo|
      reads this
    {
      arquivo[pos..]
    }

    // One byte; the program does not test for the end of the file, so here that is a fault.
    method ReadByte() returns (b: Option<Byte>)
      requires pos <= |arquivo|
      modifies `pos
      ensures pos <= |arquivo|
      ensures old(Rest()) == [] ==> b.None? && Rest() == []
      ensures old(Rest()) != [] ==> b == Some(old(Rest())[0]) && Rest() == old(Rest())[1..]
    {
      if pos == |arquivo| {
        return None;
      }
      b := Some(arquivo[pos]);
      pos := pos + 1;
    }

    // The four codes of one byte, shifted out from the top.
    method UnpackByte(byte: Byte) returns (codes: seq<nat>)
      ensures codes == Unpack(byte, 4)
    {
      hide *;
      var leitor := byte;
      codes := [];
      assert codes + Unpack(leitor, 4) == Unpack(byte, 4);
      for j := 0 to 4
        invariant codes + Unpack(leitor, 4 - j) == Unpack(byte, 4)
      {
        UnpackStep(codes, leitor, 4 - j);
        if leitor == 0 {
          codes := codes + [0];
        } else {
          codes := codes + [Top(leitor)];
          leitor := Shifted(leitor);
        }
      }
      NoneLeft(leitor);
    }

    static lemma UnpackStep(codes: seq<nat>, b: Byte, steps: nat)
      requires steps > 0
      ensures codes + Unpack(b, steps)
           == if b == 0 then codes + [0] + Unpack(0, steps - 1) else codes + [Top(b)] + Unpack(Shifted(b), steps - 1)
    {
    }

    method ReadTipos(nvar: nat) returns (r: Option<seq<nat>>)
      requires pos <= |arquivo|
      modifies `pos
      ensures pos <= |arquivo|
      ensures match r
              case None => ReadCodes(old(Rest()), nvar) == None
              case Some(codes) => ReadCodes(old(Rest()), nvar) == Some((codes, Rest()))
    {
      hide Unpack;
      var tipovar: seq<nat> := [];
      ghost var bytes := Rest();
      var left: nat := nvar;
      ghost var first := ReadCodes(bytes, nvar);
      if first.Some? {
        assert tipovar + first.value.0 == first.value.0;
      }
      while left > 0
        invariant left <= nvar && pos <= |arquivo|
        invariant
          var now := ReadCodes(Rest(), left);
          ReadCodes(bytes, nvar) == if now.None? then None else Some((tipovar + now.value.0, now.value.1))
        decreases left
      {
        var leitor := ReadByte();
        if leitor.None? {
          return None;
        }
        var here := if left < 4 then left else 4;
        var codes := UnpackByte(leitor.value);
        ghost var now := ReadCodes(Rest(), left - here);
        if now.Some? {
          assert tipovar + (codes[..here] + now.value.0) == tipovar + codes[..here] + now.value.0;
        }
        tipovar := tipovar + codes[..here];
        left := left - here;
      }
      assert tipovar + [] == tipovar;
      r := Some(tipovar);
    }

    // The bytes of one field.
    method ReadField(nbytes: nat) returns (r: Option<seq<Byte>>)
      requires pos <= |arquivo|
      modifies `pos
      ensures pos <= |arquivo|
      ensures if |old(Rest())| < nbytes then r.None?
              else r == Some(old(Rest())[..nbytes]) && Rest() == old(Rest())[nbytes..]
    {
      var field: seq<Byte> := [];
      ghost var bytes := Rest();
      for k := 0 to nbytes
        invariant pos <= |arquivo| && k <= |bytes| && field == bytes[..k] && Rest() == bytes[k..]
      {
        var leitor := ReadByte();
        if leitor.None? {
          return None;
        }
        field := field + [leitor.value];
      }
      r := Some(field);
    }

    method ReadStruct(codes: seq<nat>) returns (r: Option<seq<seq<Byte>>>)
      requires pos <= |arquivo|
      modifies `pos
      ensures pos <= |arquivo|
      ensures match r
              case None => ReadFields(old(Rest()), codes) == None
              case Some(fields) => ReadFields(old(Rest()), codes) == Some((fields, Rest()))
    {
      hide Width;
      var fields: seq<seq<Byte>> := [];
      ghost var bytes := Rest();
      assert codes[0..] == codes;
      ghost var first := ReadFields(bytes, codes);
      if first.Some? {
        assert fields + first.value.0 == first.value.0;
      }
      for i := 0 to |codes|
        invariant pos <= |arquivo|
        invariant
          var now := ReadFields(Rest(), codes[i..]);
          ReadFields(bytes, codes) == if now.None? then None else Some((fields + now.value.0, now.value.1))
      {
        assert codes[i..][0] == codes[i] && codes[i..][1..] == codes[i + 1..];
        var field := ReadField(Width(codes[i]));
        if field.None? {
          return None;
        }
        ghost var now := ReadFields(Rest(), codes[i + 1..]);
        if now.Some? {
          assert fields + ([field.value] + now.value.0) == fields + [field.value] + now.value.0;
        }
        fields := fields + [field.value];
      }
      assert codes[|codes|..] == [] && fields + [] == fields;
      r := Some(fields);
    }

    method ReadAll(codes: seq<nat>, n: nat) returns (r: Option<seq<seq<seq<Byte>>>>)
      requires pos <= |arquivo|
      modifies `pos
      ensures pos <= |arquivo|
      ensures r == ReadStructs(old(Rest()), codes, n)
    {
      hide ReadFields;
      var structs: seq<seq<seq<Byte>>> := [];
      ghost var all := ReadStructs(Rest(), codes, n);
      if all.Some? {
        assert structs + all.value == all.value;
      }
      var left: nat := n;
      while left > 0
        invariant pos <= |arquivo|
        invariant
          var now := ReadStructs(Rest(), codes, left);
          all == if now.None? then None else Some(structs + now.value)
        decreases left
      {
        var fields := ReadStruct(codes);
        if fields.None? {
          return None;
        }
        ghost var now := ReadStructs(Rest(), codes, left - 1);
        if now.Some? {
          assert structs + ([fields.value] + now.value) == structs + [fields.value] + now.value;
        }
        structs := structs + [fields.value];
        left := left - 1;
      }
      assert structs + [] == structs;
      r := Some(structs);
    }

    method Show() returns (r: Option<Shown>)
      requires pos == 0
      modifies `pos
      ensures r == Mostra(arquivo)
    {
      hide ReadCodes, ReadStructs;
      assert Rest() == arquivo;
      var b0 := ReadByte();
      if b0.None? {
        return None;
      }
      var b1 := ReadByte();
      if b1.None? {
        return None;
      }
      assert Rest() == arquivo[2..];
      var codes := ReadTipos(b1.value % 128);
      if codes.None? {
        return None;
      }
      var nstructs := Signed8(b0.value);
      var structs := ReadAll(codes.value, if nstructs < 0 then 0 else nstructs);
      if structs.None? {
        return None;
      }
      r := Some(Shown(b1.value >= 128, nstructs, codes.value, structs.value));
    }
  }
}
