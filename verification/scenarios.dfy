/** Concrete inputs and what the model says the library does with them. */
module Scenarios {
  import opened Wrappers
  import opened JavaInts
  import opened UuidLayout
  import opened ByteCodec
  import opened StringCodec
  import opened TypeClassifier
  import opened Timestamps

  const NilText: string := "00000000-0000-0000-0000-000000000000"
  const MaxText: string := "ffffffff-ffff-ffff-ffff-ffffffffffff"
  const ShortText: string := "0011223-4455-4677-8899-aabbccddeeff"

  /** The UUID all sixteen of whose bytes are `v`. */
  function Repeated(v: Byte): (u: Uuid)
    ensures u.msb == u.lsb
  {
    var half := LongOfBytes(v, v, v, v, v, v, v, v);
    Uuid(half, half)
  }

  /** The 36-character string with hyphens at the four hyphen positions and
      `c` everywhere else. */
  function Uniform(c: char): (s: string)
    ensures |s| == TextLength
  {
    seq(TextLength, k => if IsHyphenIndex(k) then '-' else c)
  }

  /** A uniform string of a hex digit parses to the UUID all of whose bytes
      repeat that digit. */
  lemma {:induction false} UniformText(c: char)
    requires IsHexDigit(c)
    ensures Parse(Some(Uniform(c))) == Success(Repeated(ByteOf(DigitValue(c), DigitValue(c))))
  {
    var s := Uniform(c);
    assert forall k :: 0 <= k < TextLength ==> WellFormedAt(s, k);
    var v := ByteOf(DigitValue(c), DigitValue(c));
    var d := DecodedBytes(s);
    forall j | 0 <= j < 16
      ensures d[j] == v
    {
      ByteStep(j);
    }
    ParseSpellsLayout(s);
    UuidBytesRoundTrip(Parse(Some(s)).value);
    assert d[..8] == d[0..8];
  }

  /** The all-zero example string is the uniform string of `0`. */
  lemma NilTextIsUniform()
    ensures NilText == Uniform('0')
  {
  }

  /** The all-`f` example string is the uniform string of `f`. */
  lemma MaxTextIsUniform()
    ensures MaxText == Uniform('f')
  {
  }

  /** The all-zero string spells the Nil UUID, which is classified `Unknown`
      and has no timestamp. */
  lemma {:induction false} NilScenario(toEpoch: Long -> Long)
    ensures Parse(Some(Uniform('0'))) == Success(Nil)
    ensures TypeOf(Some(Nil)) == Some(Unknown)
    ensures ExtractTimestamp(Some(Nil), toEpoch) == 0
  {
    UniformText('0');
    assert ByteOf(DigitValue('0'), DigitValue('0')) == 0;
  }

  /** The all-`f` string spells the Max UUID. */
  lemma {:induction false} MaxScenario()
    ensures Parse(Some(Uniform('f'))) == Success(Max)
  {
    UniformText('f');
    assert ByteOf(DigitValue('f'), DigitValue('f')) == 0xFF;
    RepeatedMax();
  }

  /** The Max UUID's version nibble 15 is not a type. */
  lemma MaxType()
    ensures TypeOf(Some(Max)).None?
  {
  }

  /** Sixteen `0xFF` bytes are the Max UUID. */
  lemma RepeatedMax()
    ensures Repeated(0xFF) == Max
  {
  }

  /** The UUID `00112233-4455-1677-8899-aabbccddeeff` has version nibble 1
      and is time-based; its raw timestamp puts `time_high` 0x677 on top of
      `time_mid` 0x4455 on top of `time_low` 0x00112233. */
  lemma V1Scenario()
    ensures TypeOf(Some(Uuid(0x0011_2233_4455_1677, 0x8899_AABB_CCDD_EEFF))) == Some(TimeBased)
    ensures RawV1(Uuid(0x0011_2233_4455_1677, 0x8899_AABB_CCDD_EEFF)) == 0x0677_4455_0011_2233
  {
  }

  /** The version 1 example of Appendix A.1 of RFC 9562,
      `C232AB00-9414-11EC-B3C8-9F6BDECED846`, carries the timestamp
      0x1EC9414C232AB00. */
  lemma RfcV1Vector()
    ensures TypeOf(Some(Uuid(0xC232_AB00_9414_11EC, 0xB3C8_9F6B_DECE_D846))) == Some(TimeBased)
    ensures RawV1(Uuid(0xC232_AB00_9414_11EC, 0xB3C8_9F6B_DECE_D846)) == 0x01EC_9414_C232_AB00
  {
  }

  /** The version 6 example of Appendix A.5 of RFC 9562,
      `1EC9414C-232A-6B00-B3C8-9F6BDECED846`, carries the same timestamp. */
  lemma RfcV6Vector()
    ensures TypeOf(Some(Uuid(0x1EC9_414C_232A_6B00, 0xB3C8_9F6B_DECE_D846))) == Some(TimeBasedReordered)
    ensures RawV6(Uuid(0x1EC9_414C_232A_6B00, 0xB3C8_9F6B_DECE_D846)) == 0x01EC_9414_C232_AB00
  {
  }

  /** The version 7 example of Appendix A.6 of RFC 9562,
      `017F22E2-79B0-7CC3-98C4-DC0C0C07398F`, carries the Unix time
      0x017F22E279B0 in milliseconds. */
  lemma RfcV7Vector(toEpoch: Long -> Long)
    ensures ExtractTimestamp(Some(Uuid(0x017F_22E2_79B0_7CC3, 0x98C4_DC0C_0C07_398F)), toEpoch) == 0x017F_22E2_79B0
  {
  }

  /** A version 7 UUID whose top 48 bits are a millisecond count gives that
      count back. */
  lemma V7Scenario(lsb: Long, toEpoch: Long -> Long)
    ensures TypeOf(Some(Uuid(0x018C_1B2A_6D80_7ABC, lsb))) == Some(TimeBasedEpoch)
    ensures ExtractTimestamp(Some(Uuid(0x018C_1B2A_6D80_7ABC, lsb)), toEpoch) == 0x018C_1B2A_6D80
  {
    ExtractFromV7(0x018C_1B2A_6D80, 0xABC, lsb, toEpoch);
  }

  /** A 35-character string is refused for its length before any hyphen or
      digit is looked at. */
  lemma ShortScenario()
    ensures Parse(Some(ShortText)) == Failure(WrongLength(35))
  {
  }

  /** A character outside the Basic Multilingual Plane is one character of
      the text, so 35 characters ending in one are refused for their length. */
  lemma AstralScenario()
    ensures Parse(Some("g000000-0000-0000-0000-00000000000" + "\U{1F600}")) == Failure(WrongLength(35))
  {
  }

  /** Sixteen bytes do not fit at offset 10 of a 20-byte buffer, for reading
      or for writing; the buffer is not written. */
  lemma NoRoomScenario(u: Uuid)
    ensures UuidFromBytesAt(Some(seq(20, _ => 0)), 10) == Failure(NoRoom(10))
    ensures ToByteArrayAt(u, Some(seq(20, _ => 0)), 10) == Failure(NoRoom(10))
  {
  }
}
