/**
 Bytes and 32-bit words as subranges of `int`, with the wrap-around, sign extension and
 little-endian layout of the IA-32 written out.
 */
module Word32 {

  const MODULUS := 0x1_0000_0000

  type Byte = b: int | 0 <= b < 256

  type Word = w: int | 0 <= w < MODULUS

  type Int32 = i: int | -0x8000_0000 <= i < 0x8000_0000

  function Wrap(x: int): Word {
    x % MODULUS
  }

  function Signed8(b: Byte): int {
    if b < 128 then b else b - 256
  }

  function Signed32(w: Word): int {
    if w < 0x8000_0000 then w else w - MODULUS
  }

  function ToBytes(w: Word): (bs: seq<Byte>)
    ensures |bs| == 4
  {
    [w % 256, w / 256 % 256, w / 65536 % 256, w / 16777216]
  }

  function FromBytes(bs: seq<Byte>): Word
    requires |bs| == 4
  {
    (bs[0] as int) + 256 * (bs[1] as int) + 65536 * (bs[2] as int) + 16777216 * (bs[3] as int)
  }

  // Storing a word with memcpy and fetching it back gives the word.
  lemma BytesRoundTrip(w: Word)
    ensures FromBytes(ToBytes(w)) == w
  {
    var a := w / 256;
    var b := a / 256;
    assert b == w / 65536 && b / 256 == w / 16777216;
    assert w == 256 * a + w % 256 && a == 256 * b + a % 256 && b == 256 * (b / 256) + b % 256;
  }

  // A displacement that fits 32 bits survives wrapping and sign extension.
  lemma SignedWrap(x: int)
    requires -0x8000_0000 <= x < 0x8000_0000
    ensures Signed32(Wrap(x)) == x
  {
    if x < 0 {
      assert Wrap(x) == x + MODULUS;
    }
  }
}
