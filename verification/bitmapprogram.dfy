/**
 The bitmap writer and reader as the program runs them: a stream that bytes are appended to
 and taken from, one row buffer filled over and over, running indices. Proved against Bitmap.
 */
module BitmapProgram {
  import opened Base
  import opened Word32
  import opened Bitmap

  // linesize = 3 * w, made a multiple of four by setting its low bits and adding one.
  method RowLength(w: nat) returns (linesize: nat)
    ensures linesize == LineSize(w)
  {
    linesize := 3 * w;
    if linesize % 4 != 0 {
      linesize := linesize / 4 * 4 + 3;
      linesize := linesize + 1;
    }
  }

  // The bytes of a number shifted right by 8, 16 and 24 bits.
  lemma BytesOfWrap(v: int)
    ensures Put4(v) == [v % 256, v / 256 % 256, v / 65536 % 256, v / 16777216 % 256]
  {
    var w: int, q := v % MODULUS, v / MODULUS;
    assert Wrap(v) == w;
    hide Wrap;
    assert v == w + MODULUS * q;
    Shift0(w, q);
    Shift8(w, q);
    Shift16(w, q);
    Shift24(w, q);
  }

  lemma Shift0(w: int, q: int)
    ensures (w + MODULUS * q) % 256 == w % 256
  {
    assert (w + MODULUS * q) % 256 == (w + 256 * (16777216 * q)) % 256;
  }

  lemma Shift8(w: int, q: int)
    ensures (w + MODULUS * q) / 256 % 256 == w / 256 % 256
  {
    assert (w + MODULUS * q) / 256 == w / 256 + 256 * (65536 * q);
  }

  lemma Shift16(w: int, q: int)
    ensures (w + MODULUS * q) / 65536 % 256 == w / 65536 % 256
  {
    assert (w + MODULUS * q) / 65536 == w / 65536 + 256 * (256 * q);
  }

  lemma Shift24(w: int, q: int)
    requires 0 <= w < MODULUS
    ensures (w + MODULUS * q) / 16777216 % 256 == w / 16777216
  {
    assert (w + MODULUS * q) / 16777216 == w / 16777216 + 256 * q;
  }

  class Stream {
    var bytes: seq<Byte>
    var pos: nat

    constructor (bytes: seq<Byte>)
      ensures this.bytes == bytes && pos == 0
    {
      this.bytes, pos := bytes, 0;
    }

    // ----- writing -----

    method Append(bs: seq<Byte>)
      modifies `bytes
      ensures bytes == old(bytes) + bs
    {
      bytes := bytes + bs;
    }

    method PutWord(v: nat)
      modifies `bytes
      ensures bytes == old(bytes) + Put2(v)
    {
      var temp := new Byte[2];
      temp[0] := v % 256;
      temp[1] := v / 256 % 256;
      Append(temp[..]);
    }

    // Each byte is the low one of the number shifted right, so a negative one is two's complement.
    method PutLong(v: int)
      modifies `bytes
      ensures bytes == old(bytes) + Put4(v)
    {
      var temp := new Byte[4];
      temp[0] := v % 256;
      temp[1] := v / 256 % 256;
      temp[2] := v / 65536 % 256;
      temp[3] := v / 16777216 % 256;
      BytesOfWrap(v);
      hide Put4;
      assert temp[..] == Put4(v);
      Append(temp[..]);
    }

    method WriteHeader(w: nat, h: nat, linesize: nat)
      requires linesize == LineSize(w)
      modifies `bytes
      ensures bytes == old(bytes) + Header(w, h)
    {
      hide Put2, Put4, LineSize;
      ghost var was := bytes;
      PutWord(19778);
      PutLong(54 + h * linesize);
      PutWord(0);
      PutWord(0);
      PutLong(54);
      ghost var first := Put2(19778) + Put4(54 + h * linesize) + Put2(0) + Put2(0) + Put4(54);
      assert bytes == was + first;
      WriteInfo(w, h);
      ghost var info := Put4(40) + Put4(w) + Put4(h) + Put2(1) + Put2(24);
      assert bytes == was + (first + info);
      WriteUnused();
    }

    method WriteInfo(w: nat, h: nat)
      modifies `bytes
      ensures bytes == old(bytes) + (Put4(40) + Put4(w) + Put4(h) + Put2(1) + Put2(24))
    {
      hide Put2, Put4;
      PutLong(40);
      PutLong(w);
      PutLong(h);
      PutWord(1);
      PutWord(24);
    }

    method WriteUnused()
      modifies `bytes
      ensures bytes == old(bytes) + (Put4(0) + Put4(0) + Put4(0) + Put4(0) + Put4(0) + Put4(0))
    {
      hide Put4;
      PutLong(0);
      PutLong(0);
      PutLong(0);
      PutLong(0);
      PutLong(0);
      PutLong(0);
    }

    // One row into the buffer, from component `base` on: blue, green, red from position 0.
    static method FillRow(data: seq<real>, w: nat, base: nat, filedata: array<Byte>)
      requires base + 3 * w <= |data| && filedata.Length >= 3 * w
      modifies filedata
      ensures filedata[..3 * w] == PixelBytes(data[base..base + 3 * w], w)
      ensures filedata[3 * w..] == old(filedata[3 * w..])
    {
      hide *;
      ghost var was := filedata[..];
      ghost var done: seq<Byte> := [];
      ghost var all := PixelBytes(data[base..base + 3 * w], w);
      assert was == done + was[0..] && done + all == all;
      var l := 1;
      for i := 0 to w
        invariant l == 3 * i + 1 && |done| == 3 * i && filedata[..] == done + was[3 * i..]
        invariant done + PixelBytes(data[base + 3 * i..base + 3 * w], w - i) == all
      {
        var pos := base + 3 * i;
        assert l + 2 <= 3 * w;
        PixelStep(data, base, w, i, done, was);
        PutPixel(filedata, l, Quantize(data[pos]), Quantize(data[pos + 1]), Quantize(data[pos + 2]));
        done := done + [Quantize(data[pos + 2]), Quantize(data[pos + 1]), Quantize(data[pos])];
        l := l + 3;
      }
      RowDone(data[base + 3 * w..base + 3 * w], done, was, 3 * w);
    }

    // One pixel more: the bytes done so far, and the buffer that holds them.
    static lemma PixelStep(data: seq<real>, base: nat, w: nat, i: nat, done: seq<Byte>, was: seq<Byte>)
      requires i < w && base + 3 * w <= |data| && |done| == 3 * i && 3 * w <= |was|
      ensures
        var pos := base + 3 * i;
        var pixel := [Quantize(data[pos + 2]), Quantize(data[pos + 1]), Quantize(data[pos])];
        && done + PixelBytes(data[pos..base + 3 * w], w - i)
            == (done + pixel) + PixelBytes(data[base + 3 * (i + 1)..base + 3 * w], w - (i + 1))
        && (done + was[3 * i..])[..3 * i] + pixel + (done + was[3 * i..])[3 * i + 3..]
           == (done + pixel) + was[3 * (i + 1)..]
    {
      hide Quantize;
      var rest := data[base + 3 * i..base + 3 * w];
      assert rest[3..] == data[base + 3 * (i + 1)..base + 3 * w];
    }

    static lemma RowDone(rest: seq<real>, done: seq<Byte>, was: seq<Byte>, end: nat)
      requires rest == [] && |done| == end <= |was|
      ensures done + PixelBytes(rest, 0) == done && (done + was[end..])[..end] == done
          && (done + was[end..])[end..] == was[end..]
    {
    }

    static method PutPixel(filedata: array<Byte>, l: nat, r: Byte, g: Byte, b: Byte)
      requires 1 <= l && l + 1 < filedata.Length
      modifies filedata
      ensures filedata[..] == old(filedata[..])[..l - 1] + [b, g, r] + old(filedata[..])[l + 2..]
    {
      filedata[l - 1] := b;
      filedata[l] := g;
      filedata[l + 1] := r;
    }

    static lemma NextBase(w: nat, k: nat)
      ensures 3 * (k + 1) * w == 3 * k * w + 3 * w
    {
    }

    method WriteBmp(i: Image)
      requires Proper(i)
      modifies `bytes
      ensures bytes == old(bytes) + Written(i)
    {
      hide Header, Rows, Total, LineSize;
      var linesize := RowLength(i.w);
      WriteHeader(i.w, i.h, linesize);
      var filedata := RowBuffer(i.w, linesize);
      WriteRows(i.data, i.w, i.h, linesize, filedata);
      assert old(bytes) + Header(i.w, i.h) + Rows(i.data, i.w, i.h)
          == old(bytes) + (Header(i.w, i.h) + Rows(i.data, i.w, i.h));
    }

    // A buffer for one row, its padding set to zero.
    static method RowBuffer(w: nat, linesize: nat) returns (filedata: array<Byte>)
      requires linesize == LineSize(w)
      ensures fresh(filedata) && filedata.Length == linesize && filedata[3 * w..] == Padding(linesize - 3 * w)
    {
      hide LineSize;
      filedata := new Byte[linesize];
      var pad := linesize - 3 * w;
      for z := 0 to pad
        invariant forall j :: linesize - z <= j < linesize ==> filedata[j] == 0
      {
        filedata[linesize - 1 - z] := 0;
      }
    }

    method WriteRows(data: seq<real>, w: nat, h: nat, linesize: nat, filedata: array<Byte>)
      requires |data| == Total(w, h) && linesize == LineSize(w) == filedata.Length
      requires filedata[3 * w..] == Padding(linesize - 3 * w)
      modifies `bytes, filedata
      ensures bytes == old(bytes) + Rows(data, w, h)
    {
      hide Rows, PixelBytes, LineSize, Total, Padding;
      ghost var at: nat := 0;
      assert data[0..] == data;
      for k := 0 to h
        invariant at == 3 * k * w && at <= |data| && |data[at..]| == Total(w, h - k)
        invariant filedata[3 * w..] == Padding(linesize - 3 * w)
        invariant bytes + Rows(data[at..], w, h - k) == old(bytes) + Rows(data, w, h)
      {
        NextRow(data, w, h - k, at);
        NextBase(w, k);
        ghost var before, rest := bytes, Rows(data[at + 3 * w..], w, h - k - 1);
        FillRow(data, w, 3 * k * w, filedata);
        Append(filedata[..]);
        assert filedata[..] == filedata[..3 * w] + filedata[3 * w..];
        assert filedata[..] == RowBytes(data[at..at + 3 * w], w);
        assert before + (filedata[..] + rest) == bytes + rest;
        at := at + 3 * w;
      }
      NoRows(data[at..], w);
    }

    static lemma NoRows(data: seq<real>, w: nat)
      requires |data| == Total(w, 0)
      ensures Rows(data, w, 0) == []
    {
    }

    static lemma NextRow(data: seq<real>, w: nat, h: nat, at: nat)
      requires h > 0 && at <= |data| && |data[at..]| == Total(w, h)
      ensures at + 3 * w <= |data| && |data[at + 3 * w..]| == Total(w, h - 1)
      ensures Rows(data[at..], w, h) == RowBytes(data[at..at + 3 * w], w) + Rows(data[at + 3 * w..], w, h - 1)
    {
      hide RowBytes, LineSize;
      var rest := data[at..];
      assert rest[..3 * w] == data[at..at + 3 * w];
      assert rest[3 * w..] == data[at + 3 * w..];
    }

    // ----- reading -----

    method GetWord() returns (v: nat)
      requires pos + 2 <= |bytes|
      modifies `pos
      ensures pos == old(pos) + 2 && v == Get2(bytes, old(pos))
    {
      var temp := bytes[pos..pos + 2];
      v := temp[1] as int * 256 + temp[0] as int;
      pos := pos + 2;
    }

    method GetDword() returns (v: Word)
      requires pos + 4 <= |bytes|
      modifies `pos
      ensures pos == old(pos) + 4 && v == Get4(bytes, old(pos))
    {
      var temp := bytes[pos..pos + 4];
      v := temp[3] as int * 16777216 + temp[2] as int * 65536 + temp[1] as int * 256 + temp[0] as int;
      pos := pos + 4;
    }

    // The header; the size when every check passes.
    method ReadHeader() returns (e: Option<Error>, w: int, h: int)
      requires pos == 0
      modifies `pos
      ensures e.None? ==>
                |bytes| >= HEADER && pos == HEADER && w == Signed32(Get4(bytes, 18)) && h == Signed32(Get4(bytes, 22))
      ensures e.None? ==> Read(bytes) == (if w < 0 || h < 0 then Err(BadSize)
                                          else match ReadRows(bytes[HEADER..], w, h)
                                               case None => Err(Truncated)
                                               case Some(data) => Ok(Image(w, h, data)))
      ensures e.Some? ==> Read(bytes) == Err(e.value)
    {
      hide Get2, Get4, ReadRows;
      w, h := 0, 0;
      if |bytes| < HEADER {
        return Some(Truncated), w, h;
      }
      var bfType := GetWord();
      if bfType != 19778 {
        return Some(BadType), w, h;
      }
      var skip := GetDword();
      var reserved1 := GetWord();
      var reserved2 := GetWord();
      if reserved1 != 0 || reserved2 != 0 {
        return Some(Reserved), w, h;
      }
      skip := GetDword();
      if skip != 54 {
        return Some(BadOffset), w, h;
      }
      skip := GetDword();
      if skip != 40 {
        return Some(BadInfoSize), w, h;
      }
      var biWidth := GetDword();
      var biHeight := GetDword();
      var planes := GetWord();
      if planes != 1 {
        return Some(BadPlanes), w, h;
      }
      var biBitCount := GetWord();
      if biBitCount != 24 {
        return Some(NotTrueColour), w, h;
      }
      skip := GetDword();
      if skip != 0 {
        return Some(Compressed), w, h;
      }
      skip := GetDword();
      skip := GetDword();
      skip := GetDword();
      skip := GetDword();
      skip := GetDword();
      e, w, h := None, Signed32(biWidth), Signed32(biHeight);
    }

    method ReadBmp() returns (r: Result<Image, Error>)
      requires pos == 0
      modifies `pos
      ensures r == Read(bytes)
    {
      hide Read, ReadRows;
      var e, w, h := ReadHeader();
      if e.Some? {
        return Err(e.value);
      }
      if w < 0 || h < 0 {
        return Err(BadSize);
      }
      var data := TakeRows(w, h);
      if data.None? {
        return Err(Truncated);
      }
      return Ok(Image(w, h, data.value));
    }

    method TakeRows(w: nat, h: nat) returns (r: Option<seq<real>>)
      requires pos <= |bytes|
      modifies `pos
      ensures pos <= |bytes|
      ensures r == ReadRows(bytes[old(pos)..], w, h)
    {
      hide *;
      var data: seq<real> := [];
      var linesize := RowLength(w);
      ghost var all := ReadRows(bytes[pos..], w, h);
      if all.Some? {
        assert data + all.value == all.value;
      }
      for i := 0 to h
        invariant pos <= |bytes|
        invariant
          var now := ReadRows(bytes[pos..], w, h - i);
          all == if now.None? then None else Some(data + now.value)
      {
        ghost var rest := bytes[pos..];
        ghost var now := if |rest| < linesize then None else ReadRows(rest[linesize..], w, h - i - 1);
        NextReadRow(rest, w, h - i);
        if |bytes| - pos < linesize {
          return None;
        }
        var linedata := bytes[pos..pos + linesize];
        assert linesize >= 3 * w && rest[..3 * w] == linedata[..3 * w];
        assert rest[linesize..] == bytes[pos + linesize..];
        var row := TakeRow(linedata, w);
        if now.Some? {
          assert data + (row + now.value) == data + row + now.value;
        }
        data := data + row;
        pos := pos + linesize;
      }
      assert data + [] == data;
      NoReadRows(bytes[pos..], w);
      return Some(data);
    }

    static lemma NextReadRow(rest: seq<Byte>, w: nat, h: nat)
      requires h > 0
      ensures
        var now := if |rest| < LineSize(w) then None else ReadRows(rest[LineSize(w)..], w, h - 1);
        ReadRows(rest, w, h) == if now.None? then None else Some(Pixels(rest[..3 * w], w) + now.value)
    {
      hide Pixels, LineSize;
    }

    static lemma NoReadRows(rest: seq<Byte>, w: nat)
      ensures ReadRows(rest, w, 0) == Some([])
    {
    }

    // The components of one row, in the order red, green, blue.
    static method TakeRow(linedata: seq<Byte>, w: nat) returns (row: seq<real>)
      requires |linedata| >= 3 * w
      ensures row == Pixels(linedata[..3 * w], w)
    {
      hide *;
      ghost var all := Pixels(linedata[..3 * w], w);
      row := [];
      assert linedata[0..3 * w] == linedata[..3 * w] && row + all == all;
      var l := 1;
      for j := 0 to w
        invariant l == 3 * j + 1
        invariant row + Pixels(linedata[3 * j..3 * w], w - j) == all
      {
        ComponentStep(linedata, w, j, row);
        row := row + [Component(linedata[l + 1]), Component(linedata[l]), Component(linedata[l - 1])];
        l := l + 3;
      }
      NoPixels(linedata[3 * w..3 * w], row);
    }

    static lemma NoPixels(rest: seq<Byte>, done: seq<real>)
      requires rest == []
      ensures done + Pixels(rest, 0) == done
    {
    }

    static lemma ComponentStep(linedata: seq<Byte>, w: nat, j: nat, done: seq<real>)
      requires j < w && 3 * w <= |linedata|
      ensures
        var pixel := [Component(linedata[3 * j + 2]), Component(linedata[3 * j + 1]), Component(linedata[3 * j])];
        done + Pixels(linedata[3 * j..3 * w], w - j)
          == (done + pixel) + Pixels(linedata[3 * (j + 1)..3 * w], w - (j + 1))
    {
      hide Component;
      var rest := linedata[3 * j..3 * w];
      assert rest[3..] == linedata[3 * (j + 1)..3 * w];
    }
  }
}
