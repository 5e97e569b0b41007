/**
 The 24-bit bitmap file: what the writer puts out for an image of real components and what
 the reader makes of it, as functions, and how close reading comes to undoing writing.
 */
module Bitmap {
  import opened Base
  import opened Word32

  // Red, green and blue of every pixel, row after row.
  datatype Image = Image(w: nat, h: nat, data: seq<real>)

  datatype Error =
    | BadType | Reserved | BadOffset | BadInfoSize | BadPlanes | NotTrueColour | Compressed | Truncated | BadSize

  // Three components for each of the w * h pixels; see TotalIsProduct.
  predicate Proper(i: Image) {
    |i.data| == Total(i.w, i.h)
  }

  // ----- numbers in the file -----

  function Put2(v: nat): (r: seq<Byte>)
    ensures |r| == 2
  {
    [v % 256, v / 256 % 256]
  }

  function Get2(bytes: seq<Byte>, at: nat): nat
    requires at + 2 <= |bytes|
  {
    bytes[at] as int + 256 * bytes[at + 1] as int
  }

  function Put4(v: int): (r: seq<Byte>)
    ensures |r| == 4
  {
    ToBytes(Wrap(v))
  }

  function Get4(bytes: seq<Byte>, at: nat): Word
    requires at + 4 <= |bytes|
  {
    FromBytes(bytes[at..at + 4])
  }

  // ----- components -----

  // 255 times the component, rounded half up.
  function Rounded(d: real): int {
    (255.0 * d + 0.5).Floor
  }

  // Above 255 is cut to 255; below zero the low byte is kept.
  function Quantize(d: real): Byte {
    if Rounded(d) < 256 then Rounded(d) % 256 else 255
  }

  function Component(b: Byte): real {
    b as real / 255.0
  }

  // A component that was read is written as the byte it came from.
  lemma QuantizeComponent(b: Byte)
    ensures Quantize(Component(b)) == b
  {
    assert 255.0 * Component(b) == b as real;
  }

  function Distance(a: real, b: real): real {
    if a < b then b - a else a - b
  }

  // A component comes back within half a step exactly when it was within half a step of the
  // range from 0 to 1.
  lemma QuantizeIsClose(d: real)
    ensures Distance(Component(Quantize(d)), d) <= 1.0 / 510.0 <==> -1.0 / 510.0 <= d <= 511.0 / 510.0
  {
    var n := Rounded(d);
    assert n as real <= 255.0 * d + 0.5 < n as real + 1.0;
    var b := Quantize(d);
    assert Component(b) * 255.0 == b as real;
  }

  // ----- rows -----

  // The least multiple of four from 3w on.
  function LineSize(w: nat): (l: nat)
    ensures l % 4 == 0 && 3 * w <= l < 3 * w + 4
  {
    if 3 * w % 4 == 0 then 3 * w else 3 * w - 3 * w % 4 + 4
  }

  function Padding(n: nat): (r: seq<Byte>)
    ensures |r| == n
  {
    seq(n, i => 0)
  }

  // Blue, green and red of each of w pixels.
  function PixelBytes(row: seq<real>, w: nat): (r: seq<Byte>)
    requires |row| == 3 * w
    ensures |r| == |row|
    decreases w
  {
    if w == 0 then []
    else [Quantize(row[2]), Quantize(row[1]), Quantize(row[0])] + PixelBytes(row[3..], w - 1)
  }

  function Pixels(bytes: seq<Byte>, w: nat): (row: seq<real>)
    requires |bytes| == 3 * w
    ensures |row| == |bytes|
    decreases w
  {
    if w == 0 then []
    else [Component(bytes[2]), Component(bytes[1]), Component(bytes[0])] + Pixels(bytes[3..], w - 1)
  }

  function RowBytes(row: seq<real>, w: nat): (r: seq<Byte>)
    requires |row| == 3 * w
    ensures |r| == LineSize(w)
  {
    PixelBytes(row, w) + Padding(LineSize(w) - 3 * w)
  }

  // The number of components in h rows.
  function Total(w: nat, h: nat): nat {
    if h == 0 then 0 else 3 * w + Total(w, h - 1)
  }

  lemma {:induction false} TotalIsProduct(w: nat, h: nat)
    ensures Total(w, h) == 3 * w * h
    decreases h
  {
    if h > 0 {
      TotalIsProduct(w, h - 1);
      assert 3 * w * h == 3 * w + 3 * w * (h - 1);
    }
  }

  function Rows(data: seq<real>, w: nat, h: nat): seq<Byte>
    requires |data| == Total(w, h)
    decreases h
  {
    if h == 0 then [] else RowBytes(data[..3 * w], w) + Rows(data[3 * w..], w, h - 1)
  }

  // The next h rows of the file; None when it ends before.
  function ReadRows(bytes: seq<Byte>, w: nat, h: nat): (r: Option<seq<real>>)
    ensures r.Some? ==> |r.value| == Total(w, h)
    decreases h
  {
    if h == 0 then Some([])
    else if |bytes| < LineSize(w) then None
    else
      match ReadRows(bytes[LineSize(w)..], w, h - 1)
      case None => None
      case Some(rest) => Some(Pixels(bytes[..3 * w], w) + rest)
  }

  // ----- the file -----

  const HEADER := 54

  function Header(w: nat, h: nat): (r: seq<Byte>)
    ensures |r| == HEADER
  {
    Put2(19778) + Put4(54 + h * LineSize(w)) + Put2(0) + Put2(0) + Put4(54)
    + (Put4(40) + Put4(w) + Put4(h) + Put2(1) + Put2(24))
    + (Put4(0) + Put4(0) + Put4(0) + Put4(0) + Put4(0) + Put4(0))
  }

  function Written(i: Image): seq<Byte>
    requires Proper(i)
  {
    Header(i.w, i.h) + Rows(i.data, i.w, i.h)
  }

  // The checks in the order they are made. A negative width or height cannot be allocated.
  function Read(bytes: seq<Byte>): (r: Result<Image, Error>)
    ensures r.Ok? ==> Proper(r.value)
  {
    if |bytes| < HEADER then Err(Truncated)
    else if Get2(bytes, 0) != 19778 then Err(BadType)
    else if Get2(bytes, 6) != 0 || Get2(bytes, 8) != 0 then Err(Reserved)
    else if Get4(bytes, 10) != 54 then Err(BadOffset)
    else if Get4(bytes, 14) != 40 then Err(BadInfoSize)
    else if Get2(bytes, 26) != 1 then Err(BadPlanes)
    else if Get2(bytes, 28) != 24 then Err(NotTrueColour)
    else if Get4(bytes, 30) != 0 then Err(Compressed)
    else
      var w, h := Signed32(Get4(bytes, 18)), Signed32(Get4(bytes, 22));
      if w < 0 || h < 0 then Err(BadSize)
      else
        match ReadRows(bytes[HEADER..], w, h)
        case None => Err(Truncated)
        case Some(data) => Ok(Image(w, h, data))
  }

  // ----- reading undoes writing -----

  // Every component replaced by the nearest one a file can hold.
  function Nearest(data: seq<real>): (r: seq<real>)
    ensures |r| == |data|
  {
    seq(|data|, i requires 0 <= i < |data| => Component(Quantize(data[i])))
  }

  lemma {:induction false} PixelsOfBytes(row: seq<real>, w: nat)
    requires |row| == 3 * w
    ensures Pixels(PixelBytes(row, w), w) == Nearest(row)
    decreases w
  {
    if w > 0 {
      PixelsOfBytes(row[3..], w - 1);
      assert PixelBytes(row, w)[3..] == PixelBytes(row[3..], w - 1);
      assert Nearest(row) == [Component(Quantize(row[0])), Component(Quantize(row[1])), Component(Quantize(row[2]))]
          + Nearest(row[3..]);
    }
  }

  lemma {:induction false} BytesOfNearest(row: seq<real>, w: nat)
    requires |row| == 3 * w
    ensures PixelBytes(Nearest(row), w) == PixelBytes(row, w)
    decreases w
  {
    if w > 0 {
      BytesOfNearest(row[3..], w - 1);
      assert Nearest(row)[3..] == Nearest(row[3..]);
      QuantizeComponent(Quantize(row[0]));
      QuantizeComponent(Quantize(row[1]));
      QuantizeComponent(Quantize(row[2]));
    }
  }

  lemma {:induction false} RowsReadBack(data: seq<real>, w: nat, h: nat)
    requires |data| == Total(w, h)
    ensures ReadRows(Rows(data, w, h), w, h) == Some(Nearest(data))
    decreases h
  {
    hide Rows, RowBytes, PixelBytes, Pixels, LineSize;
    if h == 0 {
      assert Nearest(data) == [];
    } else {
      RowsReadBack(data[3 * w..], w, h - 1);
      PixelsOfBytes(data[..3 * w], w);
      SplitRow(data, w, h);
      hide Nearest;
      assert Nearest(data) == Nearest(data)[..3 * w] + Nearest(data)[3 * w..];
    }
  }

  lemma {:induction false} RowsOfNearest(data: seq<real>, w: nat, h: nat)
    requires |data| == Total(w, h)
    ensures Rows(Nearest(data), w, h) == Rows(data, w, h)
    decreases h
  {
    hide PixelBytes, LineSize, Nearest, Padding;
    if h > 0 {
      RowsOfNearest(data[3 * w..], w, h - 1);
      BytesOfNearest(data[..3 * w], w);
      SplitRow(data, w, h);
    }
  }

  lemma SplitRow(data: seq<real>, w: nat, h: nat)
    requires h > 0 && |data| == Total(w, h)
    ensures var bytes := Rows(data, w, h);
            |bytes| >= LineSize(w) && bytes[..3 * w] == PixelBytes(data[..3 * w], w)
            && |data[3 * w..]| == Total(w, h - 1) && bytes[LineSize(w)..] == Rows(data[3 * w..], w, h - 1)
    ensures Nearest(data)[..3 * w] == Nearest(data[..3 * w]) && Nearest(data)[3 * w..] == Nearest(data[3 * w..])
  {
    hide PixelBytes, LineSize;
    var row, rest := RowBytes(data[..3 * w], w), Rows(data[3 * w..], w, h - 1);
    assert Rows(data, w, h) == row + rest;
    assert row[..3 * w] == PixelBytes(data[..3 * w], w);
  }

  // Fits the signed 32-bit fields of the header.
  predicate Fits(i: Image) {
    i.w < 0x8000_0000 && i.h < 0x8000_0000
  }

  lemma Put2Get2(bytes: seq<Byte>, at: nat, v: nat)
    requires at + 2 <= |bytes| && bytes[at..at + 2] == Put2(v) && v < 65536
    ensures Get2(bytes, at) == v
  {
    assert bytes[at] == bytes[at..at + 2][0] && bytes[at + 1] == bytes[at..at + 2][1];
  }

  lemma Put4Get4(bytes: seq<Byte>, at: nat, v: nat)
    requires at + 4 <= |bytes| && bytes[at..at + 4] == Put4(v) && v < MODULUS
    ensures Get4(bytes, at) == v
  {
    BytesRoundTrip(Wrap(v));
  }

  lemma HeaderFields(w: nat, h: nat, rest: seq<Byte>)
    requires w < 0x8000_0000 && h < 0x8000_0000
    ensures
      var bytes := Header(w, h) + rest;
      && Get2(bytes, 0) == 19778 && Get2(bytes, 6) == 0 && Get2(bytes, 8) == 0
      && Get4(bytes, 10) == 54 && Get4(bytes, 14) == 40
      && Get4(bytes, 18) == w && Get4(bytes, 22) == h
      && Get2(bytes, 26) == 1 && Get2(bytes, 28) == 24 && Get4(bytes, 30) == 0
      && bytes[HEADER..] == rest
  {
    hide Put2, Put4, Get2, Get4, LineSize;
    var bytes := Header(w, h) + rest;
    Put2Get2(bytes, 0, 19778);
    Put2Get2(bytes, 6, 0);
    Put2Get2(bytes, 8, 0);
    Put4Get4(bytes, 10, 54);
    Put4Get4(bytes, 14, 40);
    Put4Get4(bytes, 18, w);
    Put4Get4(bytes, 22, h);
    Put2Get2(bytes, 26, 1);
    Put2Get2(bytes, 28, 24);
    Put4Get4(bytes, 30, 0);
  }

  // Reading a written image gives the same size and the nearest components, and writing that
  // again gives the same file.
  lemma RoundTrip(i: Image)
    requires Proper(i) && Fits(i)
    ensures Read(Written(i)) == Ok(Image(i.w, i.h, Nearest(i.data)))
    ensures Written(Image(i.w, i.h, Nearest(i.data))) == Written(i)
  {
    hide Header, ReadRows, Rows, Get2, Get4, Nearest;
    HeaderFields(i.w, i.h, Rows(i.data, i.w, i.h));
    RowsReadBack(i.data, i.w, i.h);
    RowsOfNearest(i.data, i.w, i.h);
  }

  // Every component comes back within half a step exactly when all of them were within half
  // a step of the range from 0 to 1.
  lemma ImageIsClose(i: Image)
    requires Proper(i) && Fits(i)
    ensures Read(Written(i)).Ok? && |Read(Written(i)).value.data| == |i.data|
    ensures (forall k :: 0 <= k < |i.data| ==> Distance(Read(Written(i)).value.data[k], i.data[k]) <= 1.0 / 510.0)
       <==> (forall k :: 0 <= k < |i.data| ==> -1.0 / 510.0 <= i.data[k] <= 511.0 / 510.0)
  {
    hide Read, Written, Distance, Component, Quantize;
    RoundTrip(i);
    forall k | 0 <= k < |i.data|
      ensures Distance(Read(Written(i)).value.data[k], i.data[k]) <= 1.0 / 510.0
              <==> -1.0 / 510.0 <= i.data[k] <= 511.0 / 510.0
    {
      QuantizeIsClose(i.data[k]);
    }
  }

  // An image that came out of a file is read back as it is.
  lemma ReadImagesSurvive(bytes: seq<Byte>)
    requires Read(bytes).Ok? && Fits(Read(bytes).value)
    ensures Read(Written(Read(bytes).value)) == Read(bytes)
  {
    hide Read;
    var i := Read(bytes).value;
    RoundTrip(i);
    assert Nearest(i.data) == i.data by {
      ReadIsExact(bytes);
    }
  }

  ghost predicate Exact(data: seq<real>) {
    forall k :: 0 <= k < |data| ==> exists b: Byte :: data[k] == Component(b)
  }

  lemma {:induction false} PixelsExact(bytes: seq<Byte>, w: nat)
    requires |bytes| == 3 * w
    ensures Exact(Pixels(bytes, w))
    decreases w
  {
    if w > 0 {
      PixelsExact(bytes[3..], w - 1);
      var p, rest := Pixels(bytes, w), Pixels(bytes[3..], w - 1);
      forall k | 0 <= k < |p|
        ensures exists b: Byte :: p[k] == Component(b)
      {
        if k >= 3 {
          assert p[k] == rest[k - 3];
        }
      }
    }
  }

  lemma {:induction false} RowsExact(bytes: seq<Byte>, w: nat, h: nat)
    requires ReadRows(bytes, w, h).Some?
    ensures Exact(ReadRows(bytes, w, h).value)
    decreases h
  {
    if h > 0 {
      PixelsExact(bytes[..3 * w], w);
      RowsExact(bytes[LineSize(w)..], w, h - 1);
      hide Component;
    }
  }

  lemma ReadIsExact(bytes: seq<Byte>)
    requires Read(bytes).Ok?
    ensures Nearest(Read(bytes).value.data) == Read(bytes).value.data
  {
    var i := Read(bytes).value;
    RowsExact(bytes[HEADER..], i.w, i.h);
    forall k | 0 <= k < |i.data|
      ensures Nearest(i.data)[k] == i.data[k]
    {
      var b: Byte :| i.data[k] == Component(b);
      QuantizeComponent(b);
    }
  }

  // ----- where every component is -----

  // Component c of a pixel (red, green, blue) is byte 2 - c of the pixel's three.
  lemma {:induction false} PixelBytesAt(row: seq<real>, w: nat, x: nat, c: nat)
    requires |row| == 3 * w && x < w && c < 3
    ensures PixelBytes(row, w)[3 * x + 2 - c] == Quantize(row[3 * x + c])
    decreases w
  {
    if x > 0 {
      PixelBytesAt(row[3..], w - 1, x - 1, c);
    }
  }

  lemma {:induction false} PixelsAt(bytes: seq<Byte>, w: nat, x: nat, c: nat)
    requires |bytes| == 3 * w && x < w && c < 3
    ensures Pixels(bytes, w)[3 * x + c] == Component(bytes[3 * x + 2 - c])
    decreases w
  {
    if x > 0 {
      PixelsAt(bytes[3..], w - 1, x - 1, c);
    }
  }

  lemma RowsSplit(r: nat, size: nat)
    requires r > 0
    ensures r * size == size + (r - 1) * size
  {
  }

  // Where row r starts among the bytes, and among the components.
  function ByteOf(w: nat, r: nat): nat { r * LineSize(w) }
  function ComponentOf(w: nat, r: nat): nat { r * (3 * w) }

  lemma NextRow(w: nat, r: nat)
    ensures r > 0 ==> ByteOf(w, r) == LineSize(w) + ByteOf(w, r - 1)
    ensures r > 0 ==> ComponentOf(w, r) == 3 * w + ComponentOf(w, r - 1)
    ensures r == 0 ==> ByteOf(w, r) == 0 && ComponentOf(w, r) == 0
  {
    if r > 0 {
      RowsSplit(r, LineSize(w));
      RowsSplit(r, 3 * w);
    }
  }

  lemma {:induction false} RowInside(w: nat, h: nat, r: nat)
    requires r < h
    ensures ComponentOf(w, r) + 3 * w <= Total(w, h) && ByteOf(w, r) + LineSize(w) <= ByteOf(w, h)
    decreases h
  {
    hide ByteOf, ComponentOf, LineSize;
    NextRow(w, h);
    NextRow(w, r);
    if r > 0 {
      RowInside(w, h - 1, r - 1);
    }
  }

  lemma {:induction false} RowsLength(data: seq<real>, w: nat, h: nat)
    requires |data| == Total(w, h)
    ensures |Rows(data, w, h)| == ByteOf(w, h)
    decreases h
  {
    hide ByteOf, ComponentOf, LineSize, RowBytes;
    NextRow(w, h);
    if h > 0 {
      RowsLength(data[3 * w..], w, h - 1);
    }
  }

  lemma RowsUnfold(data: seq<real>, w: nat, h: nat)
    requires h > 0 && |data| == Total(w, h)
    ensures 3 * w <= |data| && |data[3 * w..]| == Total(w, h - 1)
    ensures Rows(data, w, h) == RowBytes(data[..3 * w], w) + Rows(data[3 * w..], w, h - 1)
  {
  }

  lemma {:induction false} RowsAt(data: seq<real>, w: nat, h: nat, r: nat, k: nat)
    requires |data| == Total(w, h) && r < h && k < LineSize(w)
    ensures ByteOf(w, r) + k < |Rows(data, w, h)| && ComponentOf(w, r) + 3 * w <= |data|
    ensures Rows(data, w, h)[ByteOf(w, r) + k] == RowBytes(data[ComponentOf(w, r)..ComponentOf(w, r) + 3 * w], w)[k]
    decreases h
  {
    hide ByteOf, ComponentOf, LineSize, RowBytes, Total, Rows;
    RowInside(w, h, r);
    RowsLength(data, w, h);
    RowsUnfold(data, w, h);
    NextRow(w, r);
    if r > 0 {
      RowsAt(data[3 * w..], w, h - 1, r - 1, k);
      var at := ComponentOf(w, r - 1);
      assert data[3 * w..][at..at + 3 * w] == data[ComponentOf(w, r)..ComponentOf(w, r) + 3 * w];
    } else {
      assert data[0..0 + 3 * w] == data[..3 * w];
    }
  }

  lemma AfterHeader(i: Image, r: nat, k: nat)
    requires Proper(i) && r < i.h && k < LineSize(i.w)
    ensures |Written(i)| == 54 + ByteOf(i.w, i.h) && 54 + ByteOf(i.w, r) + k < |Written(i)|
    ensures ComponentOf(i.w, r) + 3 * i.w <= |i.data|
    ensures Written(i)[54 + ByteOf(i.w, r) + k] ==
            RowBytes(i.data[ComponentOf(i.w, r)..ComponentOf(i.w, r) + 3 * i.w], i.w)[k]
  {
    hide Header, Rows, LineSize, Total, RowBytes, ByteOf, ComponentOf;
    RowsLength(i.data, i.w, i.h);
    RowsAt(i.data, i.w, i.h, r, k);
    var j := ByteOf(i.w, r) + k;
    assert Written(i)[54 + j] == Rows(i.data, i.w, i.h)[j];
  }

  // Component c of pixel x of row r, counted from the first, is one byte of the file: after the
  // header of 54 bytes, rows of LineSize bytes, pixels of three with blue first. Nothing
  // follows the last row.
  lemma WrittenAt(i: Image, r: nat, x: nat, c: nat)
    requires Proper(i) && r < i.h && x < i.w && c < 3
    ensures |Written(i)| == 54 + ByteOf(i.w, i.h) && 54 + ByteOf(i.w, r) + 3 * x + 2 < |Written(i)|
    ensures ComponentOf(i.w, r) + 3 * x + c < |i.data|
    ensures Written(i)[54 + ByteOf(i.w, r) + (3 * x + 2 - c)] == Quantize(i.data[ComponentOf(i.w, r) + (3 * x + c)])
  {
    hide Written, LineSize, Total, Quantize, PixelBytes, ByteOf, ComponentOf;
    AfterHeader(i, r, 3 * x + 2 - c);
    AfterHeader(i, r, 3 * x + 2);
    var at := ComponentOf(i.w, r);
    PixelBytesAt(i.data[at..at + 3 * i.w], i.w, x, c);
  }

  // The rest of every row is zero.
  lemma PaddingAt(i: Image, r: nat, k: nat)
    requires Proper(i) && r < i.h && 3 * i.w <= k < LineSize(i.w)
    ensures 54 + ByteOf(i.w, r) + k < |Written(i)| && Written(i)[54 + ByteOf(i.w, r) + k] == 0
  {
    hide Written, LineSize, Total, PixelBytes, ByteOf, ComponentOf;
    AfterHeader(i, r, k);
  }

  // The reader takes every component from the byte the writer puts it in.
  lemma {:induction false} ReadRowsAt(bytes: seq<Byte>, w: nat, h: nat, r: nat, x: nat, c: nat)
    requires ReadRows(bytes, w, h).Some? && r < h && x < w && c < 3
    ensures ByteOf(w, r) + 3 * x + 2 < |bytes| && ComponentOf(w, r) + 3 * x + c < |ReadRows(bytes, w, h).value|
    ensures ReadRows(bytes, w, h).value[ComponentOf(w, r) + (3 * x + c)] ==
            Component(bytes[ByteOf(w, r) + (3 * x + 2 - c)])
    decreases h
  {
    hide LineSize, Component, Total, Pixels, ByteOf, ComponentOf;
    NextRow(w, r);
    if r > 0 {
      ReadRowsAt(bytes[LineSize(w)..], w, h - 1, r - 1, x, c);
    } else {
      PixelsAt(bytes[..3 * w], w, x, c);
    }
  }

  lemma LowByteFirst(bytes: seq<Byte>, at: nat)
    requires at + 4 <= |bytes|
    ensures Get4(bytes, at) == (bytes[at] as int) + 256 * (bytes[at + 1] as int) + 65536 * (bytes[at + 2] as int)
                               + 16777216 * (bytes[at + 3] as int)
  {
  }

  // The type is "BM", the size is the file's, numbers have their low byte first, and what
  // comes after the number of bits is zero.
  lemma HeaderBytes(i: Image)
    requires Proper(i) && Fits(i)
    ensures
      var b := Written(i);
      && |b| >= 54 && b[0] == 66 && b[1] == 77
      && (|b| < MODULUS ==> b[2] as int + 256 * b[3] as int + 65536 * b[4] as int + 16777216 * b[5] as int == |b|)
      && b[18] as int + 256 * b[19] as int + 65536 * b[20] as int + 16777216 * b[21] as int == i.w
      && b[22] as int + 256 * b[23] as int + 65536 * b[24] as int + 16777216 * b[25] as int == i.h
      && b[30..54] == Padding(24)
  {
    hide Put2, Put4, Rows, LineSize, Get4, Total;
    var b, rest := Written(i), Rows(i.data, i.w, i.h);
    RowsLength(i.data, i.w, i.h);
    HeaderFields(i.w, i.h, rest);
    if |b| < MODULUS {
      Put4Get4(b, 2, |b|);
    }
    LowByteFirst(b, 2);
    LowByteFirst(b, 18);
    LowByteFirst(b, 22);
    ZeroBytes();
    assert b[30..54] == Put4(0) + Put4(0) + Put4(0) + Put4(0) + Put4(0) + Put4(0);
  }

  lemma ZeroBytes()
    ensures Put4(0) + Put4(0) + Put4(0) + Put4(0) + Put4(0) + Put4(0) == Padding(24)
  {
    assert Put4(0) == [0, 0, 0, 0];
  }

  // ----- which files are read -----

  lemma {:induction false} ReadRowsIff(bytes: seq<Byte>, w: nat, h: nat)
    ensures ReadRows(bytes, w, h).Some? <==> ByteOf(w, h) <= |bytes|
    decreases h
  {
    hide ByteOf, ComponentOf, LineSize, Pixels;
    NextRow(w, h);
    if h > 0 && |bytes| >= LineSize(w) {
      ReadRowsIff(bytes[LineSize(w)..], w, h - 1);
    }
  }

  // A file is read iff it has the header of an uncompressed bitmap of 24 bits and one plane with
  // a size that is not negative, and bytes for every row; the error is that of the first of these
  // that fails.
  lemma ReadIff(bytes: seq<Byte>)
    requires |bytes| >= 54
    ensures
      var w, h := Signed32(Get4(bytes, 18)), Signed32(Get4(bytes, 22));
      var r := Read(bytes);
      && (r.Ok? <==>
            && bytes[0..2] == [66, 77] && bytes[6..10] == [0, 0, 0, 0] && bytes[10..14] == [54, 0, 0, 0]
            && bytes[14..18] == [40, 0, 0, 0] && bytes[26..28] == [1, 0] && bytes[28..30] == [24, 0]
            && bytes[30..34] == [0, 0, 0, 0] && w >= 0 && h >= 0 && 54 + ByteOf(w, h) <= |bytes|)
      && (r.Ok? ==> r.value.w == w && r.value.h == h)
      && (r == Err(BadType) <==> bytes[0..2] != [66, 77])
      && (bytes[0..2] == [66, 77] ==> (r == Err(Reserved) <==> bytes[6..10] != [0, 0, 0, 0]))
  {
    hide Get4, ByteOf, LineSize;
    Get2Is(bytes, 0, 66, 77);
    Get2Is(bytes, 6, 0, 0);
    Get2Is(bytes, 8, 0, 0);
    Get2Is(bytes, 26, 1, 0);
    Get2Is(bytes, 28, 24, 0);
    Get4Is(bytes, 10, 54);
    Get4Is(bytes, 14, 40);
    Get4Is(bytes, 30, 0);
    assert bytes[6..10] == bytes[6..8] + bytes[8..10];
    var w, h := Signed32(Get4(bytes, 18)), Signed32(Get4(bytes, 22));
    if w >= 0 && h >= 0 {
      ReadRowsIff(bytes[HEADER..], w, h);
    }
  }

  lemma Get2Is(bytes: seq<Byte>, at: nat, low: Byte, high: Byte)
    requires at + 2 <= |bytes|
    ensures Get2(bytes, at) == low as int + 256 * high as int <==> bytes[at..at + 2] == [low, high]
  {
    assert bytes[at..at + 2] == [bytes[at], bytes[at + 1]];
  }

  lemma Get4Is(bytes: seq<Byte>, at: nat, low: Byte)
    requires at + 4 <= |bytes|
    ensures Get4(bytes, at) == low as int <==> bytes[at..at + 4] == [low, 0, 0, 0]
  {
    LowByteFirst(bytes, at);
    assert bytes[at..at + 4] == [bytes[at], bytes[at + 1], bytes[at + 2], bytes[at + 3]];
  }
}
