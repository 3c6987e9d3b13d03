/** The 128-bit UUID value of RFC 9562, held as `java.util.UUID` holds it, and
    its 16-byte network (big-endian) layout. The library's version enumeration
    lives here too, because every component reads or writes its codes. */
module UuidLayout {
  import opened JavaInts

  /** A UUID: `msb` holds bytes 0-7 and `lsb` bytes 8-15 of the binary layout. */
  datatype Uuid = Uuid(msb: Long, lsb: Long)

  /** The Nil UUID of section 5.9 of RFC 9562: every bit zero. */
  const Nil: Uuid := Uuid(0, 0)

  /** The Max UUID of section 5.10 of RFC 9562: every bit one. */
  const Max: Uuid := Uuid(0xFFFF_FFFF_FFFF_FFFF, 0xFFFF_FFFF_FFFF_FFFF)

  /** The library's UUID type enumeration. Each type's raw code is the RFC 9562
      version number it stands for; `Unknown` is code 0, the version field of
      the Nil UUID. */
  datatype UuidType =
    | Unknown
    | TimeBased
    | Dce
    | NameBasedMd5
    | RandomBased
    | NameBasedSha1
    | TimeBasedReordered
    | TimeBasedEpoch
    | FreeForm
  {
    function Raw(): (r: Int)
      ensures r <= 8
      ensures r == 0 <==> this == Unknown
    {
      match this
      case Unknown => 0
      case TimeBased => 1
      case Dce => 2
      case NameBasedMd5 => 3
      case RandomBased => 4
      case NameBasedSha1 => 5
      case TimeBasedReordered => 6
      case TimeBasedEpoch => 7
      case FreeForm => 8
    }
  }

  /** Distinct types have distinct raw codes. */
  lemma RawInjective(s: UuidType, t: UuidType)
    ensures s.Raw() == t.Raw() <==> s == t
  {
  }

  /** Bits 12-15 of `msb`: the version field (high nibble of byte 6). */
  const VersionMask: Long := 0xF000

  /** Bits 62-63 of `lsb`: the variant field (top two bits of byte 8). */
  const VariantMask: Long := 0xC000_0000_0000_0000

  /** The 4-bit version field of section 4.2 of RFC 9562. */
  function Version(u: Uuid): Long
  {
    (u.msb & VersionMask) >> 12
  }

  /** The top two bits of the variant field of section 4.1 of RFC 9562. */
  function Variant(u: Uuid): Long
  {
    u.lsb >> 62
  }

  /** Eight bytes, most significant first, as one 64-bit pattern. */
  function LongOfBytes(b0: Byte, b1: Byte, b2: Byte, b3: Byte, b4: Byte, b5: Byte, b6: Byte, b7: Byte): Long
  {
    ((b0 as Long) << 56) | ((b1 as Long) << 48) | ((b2 as Long) << 40) | ((b3 as Long) << 32) |
    ((b4 as Long) << 24) | ((b5 as Long) << 16) | ((b6 as Long) << 8) | (b7 as Long)
  }

  /** The value of eight bytes read as one big-endian number. */
  function BigEndian(s: seq<Byte>): Long
    requires |s| == 8
  {
    LongOfBytes(s[0], s[1], s[2], s[3], s[4], s[5], s[6], s[7])
  }

  /** The eight bytes of a `long`, most significant first. */
  function LongBytes(x: Long): (r: seq<Byte>)
    ensures |r| == 8
  {
    [((x >> 56) & 0xFF) as Byte, ((x >> 48) & 0xFF) as Byte,
     ((x >> 40) & 0xFF) as Byte, ((x >> 32) & 0xFF) as Byte,
     ((x >> 24) & 0xFF) as Byte, ((x >> 16) & 0xFF) as Byte,
     ((x >> 8) & 0xFF) as Byte, (x & 0xFF) as Byte]
  }

  /** Writing a `long` as eight bytes and reading them back gives the same `long`. */
  lemma LongBytesBigEndian(x: Long)
    ensures BigEndian(LongBytes(x)) == x
  {
  }

  /** Reading eight bytes and writing them back gives the same bytes. */
  lemma BigEndianBytes(s: seq<Byte>)
    requires |s| == 8
    ensures LongBytes(BigEndian(s)) == s
  {
  }

  /** The 16-byte layout of a UUID: `msb` then `lsb`, each big-endian. */
  function UuidBytes(u: Uuid): (r: seq<Byte>)
    ensures |r| == 16
    ensures r[..8] == LongBytes(u.msb) && r[8..] == LongBytes(u.lsb)
  {
    LongBytes(u.msb) + LongBytes(u.lsb)
  }

  /** The UUID whose 16-byte layout is `s`. */
  function UuidOfBytes(s: seq<Byte>): Uuid
    requires |s| == 16
  {
    Uuid(BigEndian(s[..8]), BigEndian(s[8..]))
  }

  /** The layout loses nothing: value to bytes to value. */
  lemma UuidBytesRoundTrip(u: Uuid)
    ensures UuidOfBytes(UuidBytes(u)) == u
  {
    LongBytesBigEndian(u.msb);
    LongBytesBigEndian(u.lsb);
  }

  /** The layout loses nothing: bytes to value to bytes. */
  lemma {:induction false} UuidOfBytesRoundTrip(s: seq<Byte>)
    requires |s| == 16
    ensures UuidBytes(UuidOfBytes(s)) == s
  {
    BigEndianBytes(s[..8]);
    BigEndianBytes(s[8..]);
    assert s == s[..8] + s[8..];
  }

  /** The Nil UUID's layout is sixteen zero bytes and the Max UUID's sixteen
      `0xFF` bytes; their version fields are 0 and 15. */
  lemma NilAndMaxBytes()
    ensures UuidBytes(Nil) == seq(16, _ => 0)
    ensures UuidBytes(Max) == seq(16, _ => 0xFF)
    ensures Version(Nil) == 0 && Version(Max) == 15
  {
  }
}
