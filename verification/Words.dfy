/** The fixed-width C integers the kernel computes with, as ranges of `int`. */
module Words {

  // `unsigned char`, `short` and `char` of the i686 target.
  type byte = x: int | 0 <= x < 0x100
  type short = x: int | -0x8000 <= x < 0x8000
  type schar = x: int | -0x80 <= x < 0x80

  // The conversions below are what an assignment to a narrower C type does: the value of that
  // type that differs from `v` by a multiple of 2^8, 2^16 or 2^32.

  function LowByte(v: int): (r: byte)
    ensures (v - r) % 0x100 == 0
  {
    v % 0x100
  }

  function ToSChar(v: byte): (r: schar)
    ensures (v - r) % 0x100 == 0
  {
    if v < 0x80 then v else v - 0x100
  }

  function ToShort(v: int): (r: short)
    ensures (v - r) % 0x1_0000 == 0
  {
    var m := v % 0x1_0000;
    if m < 0x8000 then m else m - 0x1_0000
  }

  function ToInt32(v: int): (r: int)
    ensures -0x8000_0000 <= r < 0x8000_0000
    ensures (v - r) % 0x1_0000_0000 == 0
  {
    var m := v % 0x1_0000_0000;
    if m < 0x8000_0000 then m else m - 0x1_0000_0000
  }

  // A `short` as it lies in memory: low byte first.
  function Pack(lo: byte, hi: byte): (r: short)
    ensures (lo + 0x100 * hi - r) % 0x1_0000 == 0
  {
    var u := lo + 0x100 * hi;
    if u < 0x8000 then u else u - 0x1_0000
  }

  function Bits(v: short): int {
    if v < 0 then v + 0x1_0000 else v
  }

  function Low(v: short): byte {
    Bits(v) % 0x100
  }

  function High(v: short): byte {
    Bits(v) / 0x100
  }

  lemma PackUnpack(v: short)
    ensures Pack(Low(v), High(v)) == v
  {
  }

  lemma UnpackPack(lo: byte, hi: byte)
    ensures Low(Pack(lo, hi)) == lo && High(Pack(lo, hi)) == hi
  {
  }

  // Adding a multiple of 2^32 does not change the truncated value.
  lemma ToInt32Shift(x: int, k: int)
    ensures ToInt32(x + 0x1_0000_0000 * k) == ToInt32(x)
  {
    assert (x + 0x1_0000_0000 * k) / 0x1_0000_0000 == x / 0x1_0000_0000 + k;
  }

  lemma ToInt32Quotient(x: int) returns (k: int)
    ensures x == ToInt32(x) + 0x1_0000_0000 * k
  {
    k := if ToInt32(x) < 0 then x / 0x1_0000_0000 + 1 else x / 0x1_0000_0000;
  }

  // Truncation is a congruence: truncating early does not change the end result.
  lemma ToInt32Step(x: int, d: int)
    ensures ToInt32(ToInt32(ToInt32(ToInt32(x) * 10) + d) - 48) == ToInt32(x * 10 + d - 48)
  {
    var r := ToInt32(x);
    var k := ToInt32Quotient(x);
    var r1 := ToInt32(r * 10);
    var k1 := ToInt32Quotient(r * 10);
    var r2 := ToInt32(r1 + d);
    var k2 := ToInt32Quotient(r1 + d);
    ToInt32Shift(r2 - 48, k2 + k1 + 10 * k);
  }
}
