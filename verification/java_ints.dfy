/** Java's fixed-width integer semantics, written out explicitly.
    A Java `byte`, `int` and `long` are held as their two's-complement bit
    patterns (`bv8`, `bv32`, `bv64`); the widening conversions sign-extend,
    the narrowing casts keep the low bits, and `>>` shifts in copies of the
    sign bit while `>>>` (Dafny's `>>` on bit-vectors) shifts in zeros. */
module JavaInts {

  type Byte = bv8
  type Int = bv32
  type Long = bv64

  const MinInt: int := -0x8000_0000
  const MaxInt: int := 0x7FFF_FFFF

  /** A Java `int` used as a number (array offsets). */
  type JInt = x: int | MinInt <= x <= MaxInt

  /** Two's-complement wrap-around of a mathematical sum into the `int` range. */
  function WrapInt(x: int): (r: JInt)
    ensures MinInt <= x <= MaxInt ==> r == x
    ensures (r - x) % 0x1_0000_0000 == 0
  {
    var m := (x - MinInt) % 0x1_0000_0000;
    m + MinInt
  }

  /** Widening `byte` to `int`: the sign bit is copied into bits 8-31
      (`0 - sign` is all ones exactly when the sign bit is set). */
  function ByteToInt(b: Byte): (r: Int)
  {
    (b as Int) | ((0 - ((b >> 7) as Int)) << 8)
  }

  /** Widening `int` to `long`: the sign bit is copied into bits 32-63. */
  function IntToLong(x: Int): (r: Long)
  {
    (x as Long) | ((0 - ((x >> 31) as Long)) << 32)
  }

  /** The widenings keep the value's bits and fill the new high bits with
      zeros for a non-negative value and with ones for a negative one. */
  lemma SignExtension(b: Byte, x: Int)
    ensures b & 0x80 == 0 ==> ByteToInt(b) == b as Int
    ensures b & 0x80 != 0 ==> ByteToInt(b) == (b as Int) | 0xFFFF_FF00
    ensures x & 0x8000_0000 == 0 ==> IntToLong(x) == x as Long
    ensures x & 0x8000_0000 != 0 ==> IntToLong(x) == (x as Long) | 0xFFFF_FFFF_0000_0000
  {
  }

  /** The cast `(byte)` on an `int`: keeps bits 0-7. */
  function IntToByte(x: Int): (r: Byte)
    ensures r as Int == x & 0xFF
  {
    (x & 0xFF) as Byte
  }

  /** The cast `(int)` on a `long`: keeps bits 0-31. */
  function LongToInt(x: Long): (r: Int)
    ensures r as Long == x & 0xFFFF_FFFF
  {
    (x & 0xFFFF_FFFF) as Int
  }

  /** Java's `>>` on an `int` or `long` copies the sign bit in from the left,
      where Dafny's `>>` on a bit-vector shifts in zeros. Every `>>` of the
      source is followed by a cast or a mask that keeps only bits the two
      shifts agree on, so the model writes the logical shift; these lemmas
      state the agreement for each distance the source uses, with the
      arithmetic shift spelled out. */
  lemma ArithmeticShiftToByte(x: Int)
    ensures IntToByte(if x & 0x8000_0000 == 0 then x >> 24 else !((!x) >> 24)) == IntToByte(x >> 24)
    ensures IntToByte(if x & 0x8000_0000 == 0 then x >> 16 else !((!x) >> 16)) == IntToByte(x >> 16)
    ensures IntToByte(if x & 0x8000_0000 == 0 then x >> 8 else !((!x) >> 8)) == IntToByte(x >> 8)
  {
  }

  /** `(((int) l) >> 12) & 0xF` keeps bits 12-15 whichever shift is used. */
  lemma ArithmeticShiftNibble(x: Int)
    ensures (if x & 0x8000_0000 == 0 then x >> 12 else !((!x) >> 12)) & 0xF == (x >> 12) & 0xF
  {
  }

  /** `(int) (hi >> 32)` keeps bits 32-63 whichever shift is used. */
  lemma ArithmeticShiftToInt(x: Long)
    ensures LongToInt(if x & 0x8000_0000_0000_0000 == 0 then x >> 32 else !((!x) >> 32)) == LongToInt(x >> 32)
  {
  }
}
