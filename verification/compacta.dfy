/**
 The packed struct file: what the writer puts out for an array of structs and what the
 reader takes in, as functions, and the proof that reading undoes writing.
 */
module Compacta {
  import opened Base
  import opened Word32

  datatype Kind = C | S | I

  function Size(k: Kind): nat {
    match k
    case C => 1
    case S => 2
    case I => 4
  }

  function Code(k: Kind): nat {
    match k
    case C => 1
    case S => 2
    case I => 3
  }

  // ----- layout in memory -----

  // The least multiple of the alignment from o on.
  function AlignUp(o: nat, a: nat): (r: nat)
    requires a == 1 || a == 2 || a == 4
    ensures Aligned(r, a) && o <= r < o + a
  {
    if Aligned(o, a) then o
    else if a == 2 then
      NextEven(o); o + 1
    else
      NextFour(o); o + 4 - o % 4
  }

  lemma NextEven(o: nat)
    requires o % 2 != 0
    ensures (o + 1) % 2 == 0
  {
    assert o + 1 == 2 * (o / 2 + 1);
  }

  lemma NextFour(o: nat)
    ensures (o + 4 - o % 4) % 4 == 0 && o % 4 < 4
  {
    assert o + 4 - o % 4 == 4 * (o / 4 + 1);
  }

  // A multiple of the alignment.
  predicate Aligned(o: nat, a: nat) {
    a == 1 || (a == 2 && o % 2 == 0) || (a == 4 && o % 4 == 0)
  }

  // Where the first field starts, and where the rest of the struct goes on.
  function FieldAt(k: Kind, at: nat): nat {
    AlignUp(at, Size(k))
  }

  // The first byte after the fields when they start at `at`.
  function End(kinds: seq<Kind>, at: nat): (e: nat)
    ensures e >= at
  {
    if kinds == [] then at else End(kinds[1..], FieldAt(kinds[0], at) + Size(kinds[0]))
  }

  // The size of the whole struct: a multiple of its widest field.
  function StructSize(kinds: seq<Kind>): nat {
    AlignUp(End(kinds, 0), if I in kinds then 4 else if S in kinds then 2 else 1)
  }

  // ----- the writer -----

  function Reversed(s: seq<Byte>): (r: seq<Byte>)
    ensures |r| == |s| && forall i :: 0 <= i < |s| ==> r[i] == s[|s| - 1 - i]
  {
    seq(|s|, i requires 0 <= i < |s| => s[|s| - 1 - i])
  }

  // A field's bytes in the order of the file; memory is little-endian.
  function FieldBytes(mem: seq<Byte>, o: nat, k: Kind, little: bool): (r: seq<Byte>)
    requires o + Size(k) <= |mem|
    ensures |r| == Size(k)
  {
    if little then mem[o..o + Size(k)] else Reversed(mem[o..o + Size(k)])
  }

  // The fields of the struct at `base`, from offset `at` on.
  function Fields(mem: seq<Byte>, base: nat, kinds: seq<Kind>, at: nat, little: bool): (r: seq<seq<Byte>>)
    requires base + End(kinds, at) <= |mem|
    ensures |r| == |kinds|
    decreases |kinds|
  {
    if kinds == [] then []
    else
      var o := FieldAt(kinds[0], at);
      [FieldBytes(mem, base + o, kinds[0], little)] + Fields(mem, base, kinds[1..], o + Size(kinds[0]), little)
  }

  function Concat(parts: seq<seq<Byte>>): seq<Byte> {
    if parts == [] then [] else parts[0] + Concat(parts[1..])
  }

  // The structs from number i on.
  function Structs(mem: seq<Byte>, kinds: seq<Kind>, n: nat, i: nat, little: bool): (r: seq<seq<seq<Byte>>>)
    requires i <= n && n * StructSize(kinds) <= |mem|
    ensures |r| == n - i
    decreases n - i
  {
    if i == n then []
    else
      StructFits(mem, kinds, n, i);
      [Fields(mem, i * StructSize(kinds), kinds, 0, little)] + Structs(mem, kinds, n, i + 1, little)
  }

  lemma StructFits(mem: seq<Byte>, kinds: seq<Kind>, n: nat, i: nat)
    requires i < n && n * StructSize(kinds) <= |mem|
    ensures i * StructSize(kinds) + End(kinds, 0) <= |mem|
  {
    var size := StructSize(kinds);
    assert (i + 1) * size <= n * size;
    assert (i + 1) * size == i * size + size;
  }

  function ConcatAll(structs: seq<seq<seq<Byte>>>): seq<Byte> {
    if structs == [] then [] else Concat(structs[0]) + ConcatAll(structs[1..])
  }

  // Up to four field codes in a byte, the first in the top bits, zeros where there is none.
  function CodeAt(kinds: seq<Kind>, i: nat): (c: nat)
    ensures c <= 3 && (i < |kinds| <==> c > 0)
  {
    if i < |kinds| then Code(kinds[i]) else 0
  }

  function Descriptor(kinds: seq<Kind>): Byte {
    64 * CodeAt(kinds, 0) + 16 * CodeAt(kinds, 1) + 4 * CodeAt(kinds, 2) + CodeAt(kinds, 3)
  }

  function Descriptors(kinds: seq<Kind>): seq<Byte>
    decreases |kinds|
  {
    if kinds == [] then [] else [Descriptor(kinds)] + Descriptors(if |kinds| <= 4 then [] else kinds[4..])
  }

  // The second byte: the number of fields, and the top bit set for little-endian.
  function SecondByte(fields: nat, little: bool): Byte {
    var b := fields % 256;
    if little && b < 128 then b + 128 else b
  }

  // The whole file.
  function Packed(n: nat, mem: seq<Byte>, kinds: seq<Kind>, little: bool): seq<Byte>
    requires n * StructSize(kinds) <= |mem|
  {
    [n % 256, SecondByte(|kinds|, little)] + Descriptors(kinds) + ConcatAll(Structs(mem, kinds, n, 0, little))
  }

  // ----- the reader -----

  // What is printed: the order, the number of structs, the field codes, the fields' bytes.
  datatype Shown = Shown(little: bool, nstructs: int, codes: seq<nat>, structs: seq<seq<seq<Byte>>>)

  // The two top bits at a time, until nothing is left; 0 stands for an entry left unset.
  function Unpack(b: Byte, steps: nat): (r: seq<nat>)
    ensures |r| == steps
    decreases steps
  {
    if steps == 0 then []
    else if b == 0 then [0] + Unpack(0, steps - 1)
    else [Top(b)] + Unpack(Shifted(b), steps - 1)
  }

  function Top(b: Byte): nat {
    b / 64
  }

  function Shifted(b: Byte): Byte {
    b * 4 % 256
  }

  // The codes in the descriptor bytes for nvar fields, and the rest of the file; None when
  // the file ends before.
  function ReadCodes(bytes: seq<Byte>, nvar: nat): (r: Option<(seq<nat>, seq<Byte>)>)
    ensures r.Some? ==> |r.value.0| == nvar
    decreases nvar
  {
    if nvar == 0 then Some(([], bytes))
    else if bytes == [] then None
    else
      var here := if nvar < 4 then nvar else 4;
      match ReadCodes(bytes[1..], nvar - here)
      case None => None
      case Some((codes, rest)) => Some((Unpack(bytes[0], 4)[..here] + codes, rest))
  }

  // 2 to the code minus one, as an int.
  function Width(code: nat): nat {
    if code == 0 then 0 else if code == 1 then 1 else if code == 2 then 2 else 4
  }

  function ReadFields(bytes: seq<Byte>, codes: seq<nat>): Option<(seq<seq<Byte>>, seq<Byte>)>
    decreases |codes|
  {
    if codes == [] then Some(([], bytes))
    else if |bytes| < Width(codes[0]) then None
    else
      match ReadFields(bytes[Width(codes[0])..], codes[1..])
      case None => None
      case Some((fields, rest)) => Some(([bytes[..Width(codes[0])]] + fields, rest))
  }

  function ReadStructs(bytes: seq<Byte>, codes: seq<nat>, n: nat): Option<seq<seq<seq<Byte>>>>
    decreases n
  {
    if n == 0 then Some([])
    else
      match ReadFields(bytes, codes)
      case None => None
      case Some((fields, rest)) =>
        match ReadStructs(rest, codes, n - 1)
        case None => None
        case Some(structs) => Some([fields] + structs)
  }

  // The number of structs is read as a signed byte; a negative one shows no struct.
  function Mostra(bytes: seq<Byte>): Option<Shown> {
    if |bytes| < 2 then None
    else
      match ReadCodes(bytes[2..], bytes[1] % 128)
      case None => None
      case Some((codes, rest)) =>
        var n := Signed8(bytes[0]);
        match ReadStructs(rest, codes, if n < 0 then 0 else n)
        case None => None
        case Some(structs) => Some(Shown(bytes[1] >= 128, n, codes, structs))
  }

  // ----- reading undoes writing -----

  function Codes(kinds: seq<Kind>): (r: seq<nat>)
    ensures |r| == |kinds|
  {
    seq(|kinds|, i requires 0 <= i < |kinds| => Code(kinds[i]))
  }

  lemma NoneLeft(b: Byte)
    ensures Unpack(b, 0) == []
  {
  }

  lemma UnpackDescriptor(a: nat, b: nat, c: nat, d: nat)
    requires a <= 3 && b <= 3 && c <= 3 && d <= 3
    requires (a == 0 ==> b == 0) && (b == 0 ==> c == 0) && (c == 0 ==> d == 0)
    ensures Unpack(64 * a + 16 * b + 4 * c + d, 4) == [a, b, c, d]
  {
    hide *;
    NoneLeft(0);
    var q1, q2, q3 := 16 * b + 4 * c + d, 16 * c + 4 * d, 16 * d;
    UnpackOne(64 * a + q1, 4, a, q1);
    UnpackOne(64 * b + q2, 3, b, q2);
    UnpackOne(64 * c + q3, 2, c, q3);
    UnpackOne(64 * d, 1, d, 0);
    assert 4 * q1 == 64 * b + q2 && 4 * q2 == 64 * c + q3 && 4 * q3 == 64 * d;
    assert [a] + ([b] + ([c] + ([d] + []))) == [a, b, c, d];
  }

  lemma UnpackOne(b: Byte, steps: nat, a: nat, q: nat)
    requires steps > 0 && a <= 3 && b as int == 64 * a + q && q < 64
    requires a == 0 ==> q == 0
    ensures Unpack(b, steps) == [a] + Unpack(4 * q, steps - 1)
  {
    TopBits(a, q);
  }

  lemma TopBits(a: nat, q: nat)
    requires a <= 3 && q < 64
    ensures (64 * a + q) / 64 == a && (64 * a + q) * 4 % 256 == 4 * q
  {
    assert (64 * a + q) * 4 == 256 * a + 4 * q;
  }

  lemma ReadOneByte(b: Byte, more: seq<Byte>, nvar: nat, codes: seq<nat>, rest: seq<Byte>)
    requires nvar > 0
    requires ReadCodes(more, if nvar < 4 then 0 else nvar - 4) == Some((codes, rest))
    ensures ReadCodes([b] + more, nvar) == Some((Unpack(b, 4)[..if nvar < 4 then nvar else 4] + codes, rest))
  {
    hide Unpack;
    assert ([b] + more)[1..] == more;
  }

  lemma NoDescriptors(kinds: seq<Kind>, rest: seq<Byte>)
    requires kinds == []
    ensures ReadCodes(Descriptors(kinds) + rest, |kinds|) == Some((Codes(kinds), rest))
  {
    assert Descriptors(kinds) + rest == rest;
    assert Codes(kinds) == [];
  }

  lemma DescriptorsStep(kinds: seq<Kind>, tail: seq<Kind>)
    requires kinds != [] && tail == if |kinds| <= 4 then [] else kinds[4..]
    ensures Descriptors(kinds) == [Descriptor(kinds)] + Descriptors(tail)
  {
  }

  lemma {:induction false} ReadDescriptors(kinds: seq<Kind>, rest: seq<Byte>)
    ensures ReadCodes(Descriptors(kinds) + rest, |kinds|) == Some((Codes(kinds), rest))
    decreases |kinds|
  {
    hide *;
    if kinds == [] {
      NoDescriptors(kinds, rest);
    } else {
      var tail := if |kinds| <= 4 then [] else kinds[4..];
      DescriptorsStep(kinds, tail);
      ReadDescriptors(tail, rest);
      FirstCodes(kinds, tail);
      ReadOneByte(Descriptor(kinds), Descriptors(tail) + rest, |kinds|, Codes(tail), rest);
      assert Descriptors(kinds) + rest == [Descriptor(kinds)] + (Descriptors(tail) + rest);
    }
  }

  lemma FirstCodes(kinds: seq<Kind>, tail: seq<Kind>)
    requires kinds != [] && tail == if |kinds| <= 4 then [] else kinds[4..]
    ensures Codes(kinds) == Unpack(Descriptor(kinds), 4)[..if |kinds| < 4 then |kinds| else 4] + Codes(tail)
  {
    hide Unpack;
    UnpackDescriptor(CodeAt(kinds, 0), CodeAt(kinds, 1), CodeAt(kinds, 2), CodeAt(kinds, 3));
  }

  lemma WidthIsSize(k: Kind)
    ensures Width(Code(k)) == Size(k)
  {
  }

  lemma ReadOneField(field: seq<Byte>, fields: seq<seq<Byte>>, codes: seq<nat>, rest: seq<Byte>)
    requires codes != [] && |field| == Width(codes[0])
    requires ReadFields(Concat(fields) + rest, codes[1..]) == Some((fields, rest))
    ensures ReadFields(Concat([field] + fields) + rest, codes) == Some(([field] + fields, rest))
  {
    hide Width;
    var bytes := Concat([field] + fields) + rest;
    assert ([field] + fields)[1..] == fields;
    assert bytes == field + (Concat(fields) + rest);
    assert bytes[|field|..] == Concat(fields) + rest && bytes[..|field|] == field;
  }

  lemma {:induction false} ReadOneStruct(mem: seq<Byte>, base: nat, kinds: seq<Kind>, at: nat, little: bool,
                                         rest: seq<Byte>)
    requires base + End(kinds, at) <= |mem|
    ensures
      var fields := Fields(mem, base, kinds, at, little);
      ReadFields(Concat(fields) + rest, Codes(kinds)) == Some((fields, rest))
    decreases |kinds|
  {
    var fields := Fields(mem, base, kinds, at, little);
    if kinds == [] {
      assert Concat(fields) + rest == rest;
      assert Codes(kinds) == [];
    } else {
      hide ReadFields, Concat, FieldAt, Size, FieldBytes, Width, Code;
      var k, o := kinds[0], FieldAt(kinds[0], at);
      ReadOneStruct(mem, base, kinds[1..], o + Size(k), little, rest);
      WidthIsSize(k);
      assert Codes(kinds)[1..] == Codes(kinds[1..]);
      ReadOneField(fields[0], fields[1..], Codes(kinds), rest);
      assert fields == [fields[0]] + fields[1..];
    }
  }

  // Asked for m of the structs, the reader takes the first m.
  lemma {:induction false} ReadAllStructs(mem: seq<Byte>, kinds: seq<Kind>, n: nat, i: nat, little: bool, m: nat)
    requires i <= n && n * StructSize(kinds) <= |mem| && m <= n - i
    ensures
      var structs := Structs(mem, kinds, n, i, little);
      ReadStructs(ConcatAll(structs), Codes(kinds), m) == Some(structs[..m])
    decreases m
  {
    hide StructSize, Concat, Fields, Codes, ReadFields, End;
    if m > 0 {
      var structs := Structs(mem, kinds, n, i, little);
      StructFits(mem, kinds, n, i);
      ReadAllStructs(mem, kinds, n, i + 1, little, m - 1);
      ReadOneStruct(mem, i * StructSize(kinds), kinds, 0, little, ConcatAll(structs[1..]));
      assert structs[1..] == Structs(mem, kinds, n, i + 1, little);
      assert structs[..m] == [structs[0]] + structs[1..][..m - 1];
    }
  }

  // Any number of structs of up to 127 fields: the reader shows the low byte of the number, as a
  // signed one, and that many structs from the first on, or none if it is negative.
  lemma CountIsSignedByte(n: nat, mem: seq<Byte>, kinds: seq<Kind>, little: bool)
    requires n * StructSize(kinds) <= |mem| && |kinds| <= 127
    ensures
      var k := Signed8(n % 256);
      k <= n && Mostra(Packed(n, mem, kinds, little)) ==
                Some(Shown(little, k, Codes(kinds), Structs(mem, kinds, n, 0, little)[..if k < 0 then 0 else k]))
  {
    hide StructSize, ReadCodes, ReadStructs, Structs, Codes, Descriptors, ConcatAll;
    var structs := Structs(mem, kinds, n, 0, little);
    var bytes := Packed(n, mem, kinds, little);
    assert bytes[2..] == Descriptors(kinds) + ConcatAll(structs);
    assert bytes[1] % 128 == |kinds| && (bytes[1] >= 128 <==> little);
    ReadDescriptors(kinds, ConcatAll(structs));
    var k := Signed8(n % 256);
    ReadAllStructs(mem, kinds, n, 0, little, if k < 0 then 0 else k);
  }

  // Up to 127 structs of up to 127 fields come back as they were: order, count, types and
  // every field's bytes.
  lemma RoundTrip(n: nat, mem: seq<Byte>, kinds: seq<Kind>, little: bool)
    requires n * StructSize(kinds) <= |mem|
    requires n <= 127 && |kinds| <= 127
    ensures Mostra(Packed(n, mem, kinds, little))
         == Some(Shown(little, n, Codes(kinds), Structs(mem, kinds, n, 0, little)))
  {
    hide Mostra, Packed, Structs, Codes, StructSize;
    CountIsSignedByte(n, mem, kinds, little);
    assert Structs(mem, kinds, n, 0, little)[..n] == Structs(mem, kinds, n, 0, little);
  }

  // The counts survive exactly when they fit: 127 structs, and 127 fields.
  lemma CountsSurviveIff(n: nat, mem: seq<Byte>, kinds: seq<Kind>, little: bool)
    requires n * StructSize(kinds) <= |mem|
    ensures
      var r := Mostra(Packed(n, mem, kinds, little));
      (r.Some? && r.value.nstructs == n && |r.value.codes| == |kinds|) <==> (n <= 127 && |kinds| <= 127)
  {
    if n <= 127 && |kinds| <= 127 {
      RoundTrip(n, mem, kinds, little);
    } else {
      var bytes := Packed(n, mem, kinds, little);
      assert bytes[0] == n % 256 && bytes[1] == SecondByte(|kinds|, little);
      assert Signed8(bytes[0]) <= 127 && bytes[1] % 128 <= 127;
    }
  }

  // ----- what is written -----

  function Sum(kinds: seq<Kind>): nat {
    if kinds == [] then 0 else Size(kinds[0]) + Sum(kinds[1..])
  }

  lemma {:induction false} FieldsLength(mem: seq<Byte>, base: nat, kinds: seq<Kind>, at: nat, little: bool)
    requires base + End(kinds, at) <= |mem|
    ensures |Concat(Fields(mem, base, kinds, at, little))| == Sum(kinds)
    decreases |kinds|
  {
    if kinds != [] {
      FieldsLength(mem, base, kinds[1..], FieldAt(kinds[0], at) + Size(kinds[0]), little);
      assert Fields(mem, base, kinds, at, little)[1..]
          == Fields(mem, base, kinds[1..], FieldAt(kinds[0], at) + Size(kinds[0]), little);
    }
  }

  lemma OneMore(k: nat, size: nat)
    requires k > 0
    ensures k * size == size + (k - 1) * size
  {
  }

  lemma {:induction false} StructsLength(mem: seq<Byte>, kinds: seq<Kind>, n: nat, i: nat, little: bool)
    requires i <= n && n * StructSize(kinds) <= |mem|
    ensures |ConcatAll(Structs(mem, kinds, n, i, little))| == (n - i) * Sum(kinds)
    decreases n - i
  {
    hide StructSize, Concat, Fields, Sum, End;
    if i < n {
      StructFits(mem, kinds, n, i);
      StructsLength(mem, kinds, n, i + 1, little);
      FieldsLength(mem, i * StructSize(kinds), kinds, 0, little);
      assert Structs(mem, kinds, n, i, little)[1..] == Structs(mem, kinds, n, i + 1, little);
      OneMore(n - i, Sum(kinds));
    }
  }

  lemma {:induction false} DescriptorsLength(kinds: seq<Kind>)
    ensures |Descriptors(kinds)| == (|kinds| + 3) / 4
    decreases |kinds|
  {
    if kinds != [] {
      DescriptorsLength(if |kinds| <= 4 then [] else kinds[4..]);
    }
  }

  // No padding is written.
  lemma PackedLength(n: nat, mem: seq<Byte>, kinds: seq<Kind>, little: bool)
    requires n * StructSize(kinds) <= |mem|
    ensures |Packed(n, mem, kinds, little)| == 2 + (|kinds| + 3) / 4 + n * Sum(kinds)
  {
    hide Structs, ConcatAll, Descriptors, StructSize, Sum;
    StructsLength(mem, kinds, n, 0, little);
    DescriptorsLength(kinds);
  }

  // ----- where every byte comes from -----

  // Fields at multiples of their own size, each after the one before it with less than its
  // size between them, and a struct that ends at the first multiple of its widest field.
  ghost predicate LaidOut(kinds: seq<Kind>, at: nat, off: seq<nat>, end: nat) {
    && |off| == |kinds|
    && (forall i :: 0 <= i < |off| ==> off[i] % Size(kinds[i]) == 0)
    && (forall i :: 0 <= i < |off| ==>
          Before(kinds, at, off, i) <= off[i] < Before(kinds, at, off, i) + Size(kinds[i]))
    && end == Before(kinds, at, off, |kinds|)
  }

  // The end of field i - 1, or the start of the struct.
  function Before(kinds: seq<Kind>, at: nat, off: seq<nat>, i: nat): nat
    requires i <= |kinds| == |off|
  {
    if i == 0 then at else off[i - 1] + Size(kinds[i - 1])
  }

  function Offsets(kinds: seq<Kind>, at: nat): (off: seq<nat>)
    ensures |off| == |kinds|
  {
    if kinds == [] then []
    else [FieldAt(kinds[0], at)] + Offsets(kinds[1..], FieldAt(kinds[0], at) + Size(kinds[0]))
  }

  lemma FieldAtFacts(k: Kind, at: nat)
    ensures FieldAt(k, at) % Size(k) == 0 && at <= FieldAt(k, at) < at + Size(k)
  {
  }

  lemma LaidOutCons(k: Kind, rest: seq<Kind>, at: nat, o: nat, off: seq<nat>, end: nat)
    requires LaidOut(rest, o + Size(k), off, end) && o % Size(k) == 0 && at <= o < at + Size(k)
    ensures LaidOut([k] + rest, at, [o] + off, end)
  {
    hide Size, Before;
    var kinds, all := [k] + rest, [o] + off;
    forall i | 0 < i <= |all|
      ensures Before(kinds, at, all, i) == Before(rest, o + Size(k), off, i - 1)
    {
      BeforeCons(k, rest, at, o, off, i - 1);
    }
    forall i | 0 <= i < |all|
      ensures all[i] % Size(kinds[i]) == 0
      ensures Before(kinds, at, all, i) <= all[i] < Before(kinds, at, all, i) + Size(kinds[i])
    {
      if i == 0 {
        BeforeFirst(kinds, at, all);
      } else {
        assert all[i] == off[i - 1] && kinds[i] == rest[i - 1];
      }
    }
  }

  lemma BeforeFirst(kinds: seq<Kind>, at: nat, off: seq<nat>)
    requires |kinds| == |off|
    ensures Before(kinds, at, off, 0) == at
  {
  }

  lemma BeforeCons(k: Kind, rest: seq<Kind>, at: nat, o: nat, off: seq<nat>, i: nat)
    requires i <= |rest| == |off|
    ensures Before([k] + rest, at, [o] + off, i + 1) == Before(rest, o + Size(k), off, i)
  {
  }

  lemma {:induction false} OffsetsLaidOut(kinds: seq<Kind>, at: nat)
    ensures LaidOut(kinds, at, Offsets(kinds, at), End(kinds, at))
    decreases |kinds|
  {
    if kinds != [] {
      hide Size, LaidOut, FieldAt;
      var k, rest := kinds[0], kinds[1..];
      var o := FieldAt(k, at);
      FieldAtFacts(k, at);
      OffsetsLaidOut(rest, o + Size(k));
      LaidOutCons(k, rest, at, o, Offsets(rest, o + Size(k)), End(rest, o + Size(k)));
      assert [k] + rest == kinds;
    }
  }

  lemma {:induction false} FieldsAtOffsets(mem: seq<Byte>, base: nat, kinds: seq<Kind>, at: nat, little: bool, i: nat)
    requires base + End(kinds, at) <= |mem| && i < |kinds|
    ensures base + Offsets(kinds, at)[i] + Size(kinds[i]) <= |mem|
    ensures Fields(mem, base, kinds, at, little)[i] == FieldBytes(mem, base + Offsets(kinds, at)[i], kinds[i], little)
    decreases |kinds|
  {
    hide FieldBytes, FieldAt, Size;
    if i > 0 {
      FieldsAtOffsets(mem, base, kinds[1..], FieldAt(kinds[0], at) + Size(kinds[0]), little, i - 1);
    }
  }

  lemma {:induction false} StructsAt(mem: seq<Byte>, kinds: seq<Kind>, n: nat, i: nat, little: bool, k: nat)
    requires i <= k < n && n * StructSize(kinds) <= |mem|
    ensures k * StructSize(kinds) + End(kinds, 0) <= |mem|
    ensures Structs(mem, kinds, n, i, little)[k - i] == Fields(mem, k * StructSize(kinds), kinds, 0, little)
    decreases n - i
  {
    hide StructSize, End, Fields;
    StructFits(mem, kinds, n, k);
    if i < k {
      StructsAt(mem, kinds, n, i + 1, little, k);
    }
  }

  // The size of the widest field, at least one.
  ghost predicate Widest(kinds: seq<Kind>, w: nat) {
    && (w == 1 || exists i :: 0 <= i < |kinds| && Size(kinds[i]) == w)
    && w > 0 && forall i :: 0 <= i < |kinds| ==> Size(kinds[i]) <= w
  }

  lemma StructSizeFacts(kinds: seq<Kind>) returns (w: nat)
    ensures Widest(kinds, w) && StructSize(kinds) % w == 0
    ensures End(kinds, 0) <= StructSize(kinds) < End(kinds, 0) + w
  {
    w := if I in kinds then 4 else if S in kinds then 2 else 1;
    if I in kinds {
      var i :| 0 <= i < |kinds| && kinds[i] == I;
      assert Size(kinds[i]) == 4;
    } else if S in kinds {
      var i :| 0 <= i < |kinds| && kinds[i] == S;
      assert Size(kinds[i]) == 2;
    }
  }

  // The field holds the bytes at `o`, in memory order when little-endian and reversed when not.
  ghost predicate HoldsBytes(field: seq<Byte>, mem: seq<Byte>, o: nat, width: nat, little: bool) {
    && |field| == width && o + width <= |mem|
    && forall b :: 0 <= b < width ==> field[b] == mem[if little then o + b else o + width - 1 - b]
  }

  lemma FieldHoldsBytes(mem: seq<Byte>, o: nat, k: Kind, little: bool)
    requires o + Size(k) <= |mem|
    ensures HoldsBytes(FieldBytes(mem, o, k, little), mem, o, Size(k), little)
  {
    hide Size;
  }

  // Every field holds the bytes at its offset in the struct at `base`.
  ghost predicate HoldsStruct(fields: seq<seq<Byte>>, mem: seq<Byte>, kinds: seq<Kind>, off: seq<nat>, base: nat,
                              little: bool)
    requires |off| == |kinds|
  {
    && |fields| == |kinds|
    && forall i :: 0 <= i < |kinds| ==> HoldsBytes(fields[i], mem, base + off[i], Size(kinds[i]), little)
  }

  ghost predicate HoldsStructs(structs: seq<seq<seq<Byte>>>, mem: seq<Byte>, kinds: seq<Kind>, off: seq<nat>,
                               size: nat, little: bool)
    requires |off| == |kinds|
  {
    forall k: nat :: k < |structs| ==> HoldsStruct(structs[k], mem, kinds, off, k * size, little)
  }

  lemma FieldsHoldBytes(mem: seq<Byte>, base: nat, kinds: seq<Kind>, little: bool)
    requires base + End(kinds, 0) <= |mem|
    ensures HoldsStruct(Fields(mem, base, kinds, 0, little), mem, kinds, Offsets(kinds, 0), base, little)
  {
    hide Fields, End, Offsets, Size, HoldsBytes, FieldBytes;
    forall i: nat | i < |kinds|
      ensures HoldsBytes(Fields(mem, base, kinds, 0, little)[i], mem, base + Offsets(kinds, 0)[i], Size(kinds[i]),
                         little)
    {
      FieldsAtOffsets(mem, base, kinds, 0, little, i);
      FieldHoldsBytes(mem, base + Offsets(kinds, 0)[i], kinds[i], little);
    }
  }

  lemma StructsHoldBytes(n: nat, mem: seq<Byte>, kinds: seq<Kind>, little: bool)
    requires n * StructSize(kinds) <= |mem|
    ensures HoldsStructs(Structs(mem, kinds, n, 0, little), mem, kinds, Offsets(kinds, 0), StructSize(kinds), little)
  {
    hide Fields, Structs, StructSize, End, Offsets, HoldsStruct;
    forall k: nat | k < n
      ensures HoldsStruct(Structs(mem, kinds, n, 0, little)[k], mem, kinds, Offsets(kinds, 0),
                          k * StructSize(kinds), little)
    {
      StructsAt(mem, kinds, n, 0, little, k);
      FieldsHoldBytes(mem, k * StructSize(kinds), kinds, little);
    }
  }

  // What the reader shows, byte by byte, of the memory the writer was given.
  lemma BytesComeBack(n: nat, mem: seq<Byte>, kinds: seq<Kind>, little: bool)
      returns (off: seq<nat>, end: nat, w: nat, size: nat)
    requires n * StructSize(kinds) <= |mem|
    requires n <= 127 && |kinds| <= 127
    ensures LaidOut(kinds, 0, off, end) && Widest(kinds, w) && size % w == 0 && end <= size < end + w
    ensures |off| == |kinds| && size == StructSize(kinds)
    ensures
      var r := Mostra(Packed(n, mem, kinds, little));
      && r.Some? && r.value.little == little && r.value.nstructs == n && |r.value.structs| == n
      && HoldsStructs(r.value.structs, mem, kinds, off, size, little)
  {
    hide Packed, Mostra, Structs, StructSize, End, Offsets, LaidOut, HoldsStructs;
    RoundTrip(n, mem, kinds, little);
    OffsetsLaidOut(kinds, 0);
    off, end, size := Offsets(kinds, 0), End(kinds, 0), StructSize(kinds);
    w := StructSizeFacts(kinds);
    StructsHoldBytes(n, mem, kinds, little);
  }

  // The file for one struct of a char, a short and an int, byte by byte, in either order.
  lemma SmallFile(mem: seq<Byte>)
    requires |mem| == 8
    ensures StructSize([C, S, I]) == 8
    ensures Packed(1, mem, [C, S, I], true) == [1, 131, 108, mem[0], mem[2], mem[3], mem[4], mem[5], mem[6], mem[7]]
    ensures Packed(1, mem, [C, S, I], false) == [1, 3, 108, mem[0], mem[3], mem[2], mem[7], mem[6], mem[5], mem[4]]
  {
    SmallLayout();
    SmallFields(mem, true);
    SmallFields(mem, false);
    assert Descriptors([C, S, I]) == [108] + Descriptors([]);
  }

  lemma SmallLayout()
    ensures End([C, S, I], 0) == 8 && End([S, I], 1) == 8 && End([I], 4) == 8 && End([], 8) == 8
    ensures StructSize([C, S, I]) == 8
    ensures [C, S, I][1..] == [S, I] && [S, I][1..] == [I] && [I][1..] == []
  {
    assert [C, S, I][1..] == [S, I] && [S, I][1..] == [I] && [I][1..] == [];
    assert End([], 8) == 8;
    assert End([I], 4) == 8;
    assert End([S, I], 1) == 8;
    assert [C, S, I][2] == I;
  }

  lemma SmallFields(mem: seq<Byte>, little: bool)
    requires |mem| == 8 && StructSize([C, S, I]) == 8
    ensures ConcatAll(Structs(mem, [C, S, I], 1, 0, little)) ==
            mem[0..1] + (if little then mem[2..4] else [mem[3], mem[2]])
            + (if little then mem[4..8] else [mem[7], mem[6], mem[5], mem[4]])
  {
    SmallLayout();
    var f := Fields(mem, 0, [C, S, I], 0, little);
    assert Fields(mem, 0, [], 8, little) == [];
    assert Fields(mem, 0, [I], 4, little) == [FieldBytes(mem, 4, I, little)] + [];
    assert Fields(mem, 0, [S, I], 1, little) == [FieldBytes(mem, 2, S, little)] + [FieldBytes(mem, 4, I, little)];
    assert f == [FieldBytes(mem, 0, C, little), FieldBytes(mem, 2, S, little), FieldBytes(mem, 4, I, little)];
    assert f[1..][1..] == [f[2]] && f[1..] == [f[1], f[2]];
    assert Concat([f[2]]) == f[2] + Concat([]);
    assert Structs(mem, [C, S, I], 1, 0, little) == [f] + Structs(mem, [C, S, I], 1, 1, little);
    assert ConcatAll([f] + []) == Concat(f) + ConcatAll([]);
    assert Reversed(mem[2..4]) == [mem[3], mem[2]] && Reversed(mem[4..8]) == [mem[7], mem[6], mem[5], mem[4]];
  }
}
