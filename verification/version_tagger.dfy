/** Stamping the version (section 4.2 of RFC 9562) and the variant `10`
    (section 4.1 of RFC 9562) into UUID bits: on the two `long` halves, and on
    the 16-byte layout before it is read as a UUID. */
module VersionTagger {
  import opened Wrappers
  import opened JavaInts
  import opened UuidLayout
  import opened ByteCodec

  /** `initUUIDFirstLong(long, int)`: clears bits 12-15 and ors in the raw
      type shifted to bit 12, the shift done on an `int` and sign-extended to
      `long`. Only a raw type in 0-15 lands inside the version field. */
  function InitFirstLong(l1: Long, rawType: Int): (r: Long)
    ensures rawType < 16 ==> r == (l1 & !VersionMask) | ((rawType as Long) << 12)
  {
    (l1 & !VersionMask) | IntToLong(rawType << 12)
  }

  /** The first half keeps bits 0-11 whatever the raw type; a raw type in
      0-15 becomes the version field and every other bit is kept. */
  lemma InitFirstLongFields(l1: Long, rawType: Int)
    ensures InitFirstLong(l1, rawType) & 0xFFF == l1 & 0xFFF
    ensures rawType < 16 ==> InitFirstLong(l1, rawType) & !VersionMask == l1 & !VersionMask
    ensures rawType < 16 ==> Version(Uuid(InitFirstLong(l1, rawType), 0)) == rawType as Long
  {
  }

  /** `initUUIDFirstLong(long, UUIDType)`: the same with the type's raw code. */
  function InitFirstLongOfType(l1: Long, t: UuidType): (r: Long)
    ensures Version(Uuid(r, 0)) == t.Raw() as Long
  {
    InitFirstLong(l1, t.Raw())
  }

  /** `initUUIDSecondLong`: clears the top two bits with `(l2 << 2) >>> 2` and
      sets them to `10`. */
  function InitSecondLong(l2: Long): (r: Long)
    ensures r == (l2 & !VariantMask) | 0x8000_0000_0000_0000
  {
    ((l2 << 2) >> 2) | (2 << 62)
  }

  /** The second half has top bits `10` and keeps bits 0-61. */
  lemma InitSecondLongFields(l2: Long)
    ensures InitSecondLong(l2) >> 62 == 2
    ensures InitSecondLong(l2) & !VariantMask == l2 & !VariantMask
  {
  }

  /** Stamping the first half twice with the same raw type is stamping it
      once, whatever the raw type. */
  lemma InitFirstLongIdempotent(l1: Long, rawType: Int)
    ensures InitFirstLong(InitFirstLong(l1, rawType), rawType) == InitFirstLong(l1, rawType)
  {
  }

  /** Stamping the variant twice is stamping it once. */
  lemma InitSecondLongIdempotent(l2: Long)
    ensures InitSecondLong(InitSecondLong(l2)) == InitSecondLong(l2)
  {
  }

  /** `constructUUID(UUIDType, long, long)`, with the masking written out
      again as the source writes it. */
  function ConstructFromLongs(t: UuidType, l1: Long, l2: Long): Uuid
  {
    var msb := (l1 & !VersionMask) | IntToLong(t.Raw() << 12);
    var lsb := ((l2 << 2) >> 2) | (2 << 62);
    Uuid(msb, lsb)
  }

  /** The `long` overload of `constructUUID` is the pair of the two `init`
      methods. */
  lemma ConstructFromLongsIsInit(t: UuidType, l1: Long, l2: Long)
    ensures ConstructFromLongs(t, l1, l2) == Uuid(InitFirstLongOfType(l1, t), InitSecondLong(l2))
  {
  }

  /** A constructed UUID carries the type's version and the RFC variant, and
      every other bit of the two halves it was given. */
  lemma ConstructedFields(t: UuidType, l1: Long, l2: Long)
    ensures Version(ConstructFromLongs(t, l1, l2)) == t.Raw() as Long
    ensures Variant(ConstructFromLongs(t, l1, l2)) == 2
    ensures ConstructFromLongs(t, l1, l2).msb & !VersionMask == l1 & !VersionMask
    ensures ConstructFromLongs(t, l1, l2).lsb & !VariantMask == l2 & !VariantMask
  {
  }

  /** Byte 6 as `constructUUID` rewrites it: the `byte` widened to `int`, its
      low nibble kept, the raw type shifted into the high nibble, cast back. */
  function TagVersionByte(x: Byte, rawType: Int): (r: Byte)
    ensures rawType < 16 ==> r == (x & 0xF) | ((rawType as Byte) << 4)
  {
    IntToByte((ByteToInt(x) & 0xF) | (rawType << 4))
  }

  /** Byte 8 as `constructUUID` rewrites it: its low six bits kept and the
      top two set to `10`. */
  function TagVariantByte(x: Byte): (r: Byte)
    ensures r == (x & 0x3F) | 0x80
  {
    IntToByte((ByteToInt(x) & 0x3F) | 0x80)
  }

  /** The caller's array after `constructUUID(UUIDType, byte[])` has written
      bytes 6 and 8 in place. */
  function TagBytes(t: UuidType, b: seq<Byte>): (r: seq<Byte>)
    requires |b| > 8
    ensures |r| == |b|
    ensures forall i :: 0 <= i < |b| && i != 6 && i != 8 ==> r[i] == b[i]
    ensures r[6] == TagVersionByte(b[6], t.Raw()) && r[8] == TagVariantByte(b[8])
  {
    b[6 := TagVersionByte(b[6], t.Raw())][8 := TagVariantByte(b[8])]
  }

  /** What `constructUUID(UUIDType, byte[])` leaves behind: the UUID it
      returns and the caller's array, which it has modified. */
  datatype Constructed = Constructed(uuid: Uuid, bytes: seq<Byte>)

  /** `constructUUID(UUIDType, byte[])`: tags bytes 6 and 8 in place, then
      reads the first 16 bytes as a UUID. */
  function ConstructFromBytes(t: UuidType, b: seq<Byte>): (r: Constructed)
    requires |b| >= 16
    ensures r.bytes == TagBytes(t, b)
    ensures r.uuid == UuidOfBytes(r.bytes[..16])
  {
    var tagged := TagBytes(t, b);
    match UuidFromBytes(Some(tagged))
    case Success(u) => Constructed(u, tagged)
    case Failure(_) => assert false; Constructed(Nil, tagged)
  }

  /** Stamping the version into byte 6 of the layout is stamping it into
      bits 12-15 of the `long` that byte belongs to. */
  lemma TagFirstLong(b0: Byte, b1: Byte, b2: Byte, b3: Byte, b4: Byte, b5: Byte, b6: Byte, b7: Byte, rawType: Int)
    requires rawType < 16
    ensures InitFirstLong(LongOfBytes(b0, b1, b2, b3, b4, b5, b6, b7), rawType)
         == LongOfBytes(b0, b1, b2, b3, b4, b5, TagVersionByte(b6, rawType), b7)
  {
  }

  /** Stamping the variant into byte 8 of the layout is stamping it into the
      top bits of the second `long`. */
  lemma TagSecondLong(b8: Byte, b9: Byte, b10: Byte, b11: Byte, b12: Byte, b13: Byte, b14: Byte, b15: Byte)
    ensures InitSecondLong(LongOfBytes(b8, b9, b10, b11, b12, b13, b14, b15))
         == LongOfBytes(TagVariantByte(b8), b9, b10, b11, b12, b13, b14, b15)
  {
  }

  /** The UUID read from the tagged array, half by half: the untagged bytes
      with byte 6 and byte 8 replaced. */
  lemma {:induction false} TaggedHalves(t: UuidType, b: seq<Byte>)
    requires |b| >= 16
    ensures ConstructFromBytes(t, b).uuid
         == Uuid(LongOfBytes(b[0], b[1], b[2], b[3], b[4], b[5], TagVersionByte(b[6], t.Raw()), b[7]),
                 LongOfBytes(TagVariantByte(b[8]), b[9], b[10], b[11], b[12], b[13], b[14], b[15]))
  {
    var tagged := TagBytes(t, b);
    assert tagged[..16][..8] == tagged[0..8];
    assert tagged[..16][8..] == tagged[8..16];
  }

  /** The two overloads agree: tagging the bytes and reading them gives the
      UUID the `long` overload builds from the untagged halves. */
  lemma {:induction false} ConstructOverloadsAgree(t: UuidType, b: seq<Byte>)
    requires |b| >= 16
    ensures ConstructFromBytes(t, b).uuid == ConstructFromLongs(t, GatherLong(b, 0), GatherLong(b, 8))
  {
    TaggedHalves(t, b);
    TagFirstLong(b[0], b[1], b[2], b[3], b[4], b[5], b[6], b[7], t.Raw());
    TagSecondLong(b[8], b[9], b[10], b[11], b[12], b[13], b[14], b[15]);
    ConstructFromLongsIsInit(t, GatherLong(b, 0), GatherLong(b, 8));
  }
}
