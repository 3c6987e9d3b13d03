/** Reading a UUID out of a byte buffer and writing one into it, 16 bytes at
    a given offset, `msb` first and each half big-endian. No version or
    variant check is made in either direction. */
module ByteCodec {
  import opened Wrappers
  import opened JavaInts
  import opened UuidLayout

  /** The `IllegalArgumentException`s of the bounds check. */
  datatype ArgumentError = NullBuffer | NegativeOffset(offset: int) | NoRoom(offset: int)

  /** A non-null buffer with 16 bytes of room at `offset`. */
  predicate HasRoom(bytes: Option<seq<Byte>>, offset: int)
  {
    bytes.Some? && 0 <= offset && offset + 16 <= |bytes.value|
  }

  /** The bounds check shared by reading and writing, with the room test
      `offset + 16 > length` evaluated without overflow (see
      `CheckByteArrayAsWritten` for the source's `int` sum). The first failing
      condition, in the order null, negative, too short, names the error. */
  function CheckByteArray(bytes: Option<seq<Byte>>, offset: JInt): (r: Outcome<ArgumentError>)
    ensures r.Pass? <==> HasRoom(bytes, offset)
    ensures r == Fail(NullBuffer) <==> bytes.None?
    ensures r == Fail(NegativeOffset(offset)) <==> bytes.Some? && offset < 0
    ensures r == Fail(NoRoom(offset)) <==> bytes.Some? && 0 <= offset && offset + 16 > |bytes.value|
  {
    if bytes.None? then Fail(NullBuffer)
    else if offset < 0 then Fail(NegativeOffset(offset))
    else if offset + 16 > |bytes.value| then Fail(NoRoom(offset))
    else Pass
  }

  /** The bounds check as the source writes it: `offset + 16` is a Java `int`
      sum, which wraps to a negative number once `offset` exceeds
      `MaxInt - 16`. */
  function CheckByteArrayAsWritten(bytes: Option<seq<Byte>>, offset: JInt): (r: Outcome<ArgumentError>)
    ensures r == Fail(NullBuffer) <==> bytes.None?
    ensures r == Fail(NegativeOffset(offset)) <==> bytes.Some? && offset < 0
    ensures r.Pass? ==> bytes.Some? && 0 <= offset
  {
    if bytes.None? then Fail(NullBuffer)
    else if offset < 0 then Fail(NegativeOffset(offset))
    else if WrapInt(offset + 16) > |bytes.value| then Fail(NoRoom(offset))
    else Pass
  }

  /** Wherever the sum cannot overflow, the two checks agree. */
  lemma CheckAsWrittenAgrees(bytes: Option<seq<Byte>>, offset: JInt)
    requires offset <= MaxInt - 16
    ensures CheckByteArrayAsWritten(bytes, offset) == CheckByteArray(bytes, offset)
  {
  }

  /** Near `MaxInt` the check as written lets every non-null buffer through,
      although no Java array has room for 16 bytes there; the reads or writes
      that follow then fail out of bounds instead of with the argument error. */
  lemma CheckAsWrittenOverflows(bytes: seq<Byte>, offset: JInt)
    requires |bytes| <= MaxInt
    requires MaxInt - 16 < offset
    ensures CheckByteArrayAsWritten(Some(bytes), offset) == Pass
    ensures CheckByteArray(Some(bytes), offset) == Fail(NoRoom(offset))
  {
  }

  /** Four bytes, most significant first, as one 32-bit pattern. */
  function IntOfBytes(b0: Byte, b1: Byte, b2: Byte, b3: Byte): Int
  {
    ((b0 as Int) << 24) | ((b1 as Int) << 16) | ((b2 as Int) << 8) | (b3 as Int)
  }

  /** The expression of `_gatherInt` on four bytes: the first byte is
      sign-extended and shifted so that its copies of the sign bit fall off;
      the others are masked back to eight bits after the sign extension. */
  function JavaGatherInt(b0: Byte, b1: Byte, b2: Byte, b3: Byte): (r: Int)
    ensures r == IntOfBytes(b0, b1, b2, b3)
  {
    (ByteToInt(b0) << 24) | ((ByteToInt(b1) & 0xFF) << 16) | ((ByteToInt(b2) & 0xFF) << 8) | (ByteToInt(b3) & 0xFF)
  }

  /** `_gatherInt`: the four bytes at `offset` as a big-endian `int`. */
  function GatherInt(buffer: seq<Byte>, offset: nat): (r: Int)
    requires offset + 4 <= |buffer|
    ensures r == IntOfBytes(buffer[offset], buffer[offset + 1], buffer[offset + 2], buffer[offset + 3])
  {
    JavaGatherInt(buffer[offset], buffer[offset + 1], buffer[offset + 2], buffer[offset + 3])
  }

  /** The expression of `gatherLong` on two `int`s: the high one is
      sign-extended and shifted up, the low one sign-extended and then
      cleared of its extension by a left shift and a logical right shift. */
  function JoinInts(hi: Int, lo: Int): (r: Long)
    ensures r == ((hi as Long) << 32) | (lo as Long)
  {
    (IntToLong(hi) << 32) | ((IntToLong(lo) << 32) >> 32)
  }

  /** Two big-endian `int`s side by side are the big-endian `long` of their eight bytes. */
  lemma ConcatInts(b0: Byte, b1: Byte, b2: Byte, b3: Byte, b4: Byte, b5: Byte, b6: Byte, b7: Byte)
    ensures ((IntOfBytes(b0, b1, b2, b3) as Long) << 32) | (IntOfBytes(b4, b5, b6, b7) as Long)
         == LongOfBytes(b0, b1, b2, b3, b4, b5, b6, b7)
  {
  }

  /** The expression of `gatherLong` on eight bytes: the two `_gatherInt`s joined. */
  function JavaGatherLong(b0: Byte, b1: Byte, b2: Byte, b3: Byte, b4: Byte, b5: Byte, b6: Byte, b7: Byte): (r: Long)
    ensures r == LongOfBytes(b0, b1, b2, b3, b4, b5, b6, b7)
  {
    ConcatInts(b0, b1, b2, b3, b4, b5, b6, b7);
    JoinInts(JavaGatherInt(b0, b1, b2, b3), JavaGatherInt(b4, b5, b6, b7))
  }

  /** `gatherLong`: the eight bytes at `offset` as a big-endian `long`. */
  function GatherLong(buffer: seq<Byte>, offset: nat): (r: Long)
    requires offset + 8 <= |buffer|
    ensures r == LongOfBytes(buffer[offset], buffer[offset + 1], buffer[offset + 2], buffer[offset + 3],
                             buffer[offset + 4], buffer[offset + 5], buffer[offset + 6], buffer[offset + 7])
  {
    JavaGatherLong(buffer[offset], buffer[offset + 1], buffer[offset + 2], buffer[offset + 3],
                   buffer[offset + 4], buffer[offset + 5], buffer[offset + 6], buffer[offset + 7])
  }

  /** The eight bytes at `offset` are the big-endian layout `gatherLong` reads. */
  lemma GatherLongSlice(buffer: seq<Byte>, offset: nat)
    requires offset + 8 <= |buffer|
    ensures GatherLong(buffer, offset) == BigEndian(buffer[offset..offset + 8])
  {
  }

  /** The four bytes of an `int`, most significant first, each taken with the
      `(byte)` cast as `_appendInt` takes it. */
  function IntBytes(x: Int): (r: seq<Byte>)
    ensures |r| == 4 && IntOfBytes(r[0], r[1], r[2], r[3]) == x
  {
    [IntToByte(x >> 24), IntToByte(x >> 16), IntToByte(x >> 8), IntToByte(x)]
  }

  /** A `long`'s eight bytes are the bytes of its high `int` and then of its low `int`. */
  lemma LongBytesAsInts(x: Long)
    ensures LongBytes(x) == IntBytes(LongToInt(x >> 32)) + IntBytes(LongToInt(x))
  {
  }

  /** `_appendInt`: the four bytes of an `int`, most significant first,
      stored at `offset`; nothing else in the buffer changes. */
  function AppendInt(value: Int, buffer: seq<Byte>, offset: nat): (r: seq<Byte>)
    requires offset + 4 <= |buffer|
    ensures |r| == |buffer|
    ensures r[offset..offset + 4] == IntBytes(value)
    ensures forall k :: 0 <= k < |r| && !(offset <= k < offset + 4) ==> r[k] == buffer[k]
  {
    buffer[offset := IntToByte(value >> 24)]
          [offset + 1 := IntToByte(value >> 16)]
          [offset + 2 := IntToByte(value >> 8)]
          [offset + 3 := IntToByte(value)]
  }

  /** What `_appendInt` stores, `_gatherInt` reads back. */
  lemma AppendGather(value: Int, buffer: seq<Byte>, offset: nat)
    requires offset + 4 <= |buffer|
    ensures GatherInt(AppendInt(value, buffer, offset), offset) == value
  {
    var r := AppendInt(value, buffer, offset);
    assert r[offset..offset + 4][1] == r[offset + 1];
  }

  /** Four writes of four bytes each, side by side, with a frame for each:
      together they store the concatenation and leave the rest alone. */
  lemma {:induction false} FourWrites(buffer: seq<Byte>, r0: seq<Byte>, r1: seq<Byte>, r2: seq<Byte>, r3: seq<Byte>,
                                      offset: nat, w: seq<Byte>)
    requires offset + 16 <= |buffer| && |w| == 16
    requires |r0| == |r1| == |r2| == |r3| == |buffer|
    requires r0[offset..offset + 4] == w[..4]
    requires r1[offset + 4..offset + 8] == w[4..8]
    requires r2[offset + 8..offset + 12] == w[8..12]
    requires r3[offset + 12..offset + 16] == w[12..]
    requires forall k :: 0 <= k < |r0| && !(offset <= k < offset + 4) ==> r0[k] == buffer[k]
    requires forall k :: 0 <= k < |r1| && !(offset + 4 <= k < offset + 8) ==> r1[k] == r0[k]
    requires forall k :: 0 <= k < |r2| && !(offset + 8 <= k < offset + 12) ==> r2[k] == r1[k]
    requires forall k :: 0 <= k < |r3| && !(offset + 12 <= k < offset + 16) ==> r3[k] == r2[k]
    ensures r3[offset..offset + 16] == w
    ensures forall k :: 0 <= k < |r3| && !(offset <= k < offset + 16) ==> r3[k] == buffer[k]
  {
    forall k | 0 <= k < 16
      ensures r3[offset + k] == w[k]
    {
      if k < 4 {
        assert r0[offset + k] == r0[offset..offset + 4][k] == w[..4][k];
      } else if k < 8 {
        assert r1[offset + k] == r1[offset + 4..offset + 8][k - 4] == w[4..8][k - 4];
      } else if k < 12 {
        assert r2[offset + k] == r2[offset + 8..offset + 12][k - 8] == w[8..12][k - 8];
      } else {
        assert r3[offset + k] == r3[offset + 12..offset + 16][k - 12] == w[12..][k - 12];
      }
    }
  }

  /** The layout of a UUID as the four `int`s `_appendInt` writes. */
  lemma {:induction false} UuidBytesAsInts(u: Uuid)
    ensures UuidBytes(u)[..4] == IntBytes(LongToInt(u.msb >> 32))
    ensures UuidBytes(u)[4..8] == IntBytes(LongToInt(u.msb))
    ensures UuidBytes(u)[8..12] == IntBytes(LongToInt(u.lsb >> 32))
    ensures UuidBytes(u)[12..] == IntBytes(LongToInt(u.lsb))
  {
    LongBytesAsInts(u.msb);
    LongBytesAsInts(u.lsb);
    var w := UuidBytes(u);
    assert w[..4] == w[..8][..4];
    assert w[4..8] == w[..8][4..];
    assert w[8..12] == w[8..][..4];
    assert w[12..] == w[8..][4..];
  }

  /** The four `_appendInt` calls shared by `asByteArray` and `toByteArray`:
      `msb` then `lsb`, each as its high `int` then its low `int`. The high
      `int` is `(int) (hi >> 32)`. */
  function WriteUuid(u: Uuid, buffer: seq<Byte>, offset: nat): (r: seq<Byte>)
    requires offset + 16 <= |buffer|
    ensures |r| == |buffer|
    ensures r[offset..offset + 16] == UuidBytes(u)
    ensures forall k :: 0 <= k < |r| && !(offset <= k < offset + 16) ==> r[k] == buffer[k]
  {
    var r0 := AppendInt(LongToInt(u.msb >> 32), buffer, offset);
    var r1 := AppendInt(LongToInt(u.msb), r0, offset + 4);
    var r2 := AppendInt(LongToInt(u.lsb >> 32), r1, offset + 8);
    var r3 := AppendInt(LongToInt(u.lsb), r2, offset + 12);
    UuidBytesAsInts(u);
    FourWrites(buffer, r0, r1, r2, r3, offset, UuidBytes(u));
    r3
  }

  /** `uuid(byte[], int)`: the UUID stored at `offset`, after the bounds
      check; any 16 bytes are accepted. */
  function UuidFromBytesAt(bytes: Option<seq<Byte>>, offset: JInt): (r: Result<Uuid, ArgumentError>)
    ensures r.Success? <==> HasRoom(bytes, offset)
    ensures r.Failure? ==> CheckByteArray(bytes, offset) == Fail(r.error)
    ensures r.Success? ==> r.value == UuidOfBytes(bytes.value[offset..offset + 16])
  {
    match CheckByteArray(bytes, offset)
    case Fail(e) => Failure(e)
    case Pass =>
      var b := bytes.value;
      assert b[offset..offset + 16][..8] == b[offset..offset + 8];
      assert b[offset..offset + 16][8..] == b[offset + 8..offset + 16];
      Success(Uuid(GatherLong(b, offset), GatherLong(b, offset + 8)))
  }

  /** `uuid(byte[])`: the UUID stored in the first 16 bytes. */
  function UuidFromBytes(bytes: Option<seq<Byte>>): (r: Result<Uuid, ArgumentError>)
    ensures r.Success? <==> bytes.Some? && |bytes.value| >= 16
    ensures r.Failure? ==> r.error == (if bytes.None? then NullBuffer else NoRoom(0))
    ensures r.Success? ==> r.value == UuidOfBytes(bytes.value[..16])
  {
    match CheckByteArray(bytes, 0)
    case Fail(e) => Failure(e)
    case Pass =>
      var b := bytes.value;
      assert b[..16][..8] == b[0..8];
      assert b[..16][8..] == b[8..16];
      Success(Uuid(GatherLong(b, 0), GatherLong(b, 8)))
  }

  /** `asByteArray`: a fresh 16-byte array holding the UUID. */
  function AsByteArray(u: Uuid): (r: seq<Byte>)
    ensures r == UuidBytes(u)
  {
    var r := WriteUuid(u, seq(16, _ => 0), 0);
    assert r == r[0..16];
    r
  }

  /** `toByteArray(UUID, byte[], int)`: the buffer with the UUID stored at
      `offset`. When the bounds check fails nothing is written; otherwise only
      the 16 bytes at `offset` change. */
  function ToByteArrayAt(u: Uuid, buffer: Option<seq<Byte>>, offset: JInt): (r: Result<seq<Byte>, ArgumentError>)
    ensures r.Success? <==> HasRoom(buffer, offset)
    ensures r.Failure? ==> CheckByteArray(buffer, offset) == Fail(r.error)
    ensures r.Success? ==> |r.value| == |buffer.value| && r.value[offset..offset + 16] == UuidBytes(u)
    ensures r.Success? ==>
      forall k :: 0 <= k < |r.value| && !(offset <= k < offset + 16) ==> r.value[k] == buffer.value[k]
  {
    match CheckByteArray(buffer, offset)
    case Fail(e) => Failure(e)
    case Pass => Success(WriteUuid(u, buffer.value, offset))
  }

  /** `toByteArray(UUID, byte[])`: the same at offset 0. */
  function ToByteArray(u: Uuid, buffer: Option<seq<Byte>>): (r: Result<seq<Byte>, ArgumentError>)
    ensures r.Success? <==> buffer.Some? && |buffer.value| >= 16
    ensures r.Success? ==> r.value == UuidBytes(u) + buffer.value[16..]
  {
    var r := ToByteArrayAt(u, buffer, 0);
    assert r.Success? ==> r.value == r.value[0..16] + r.value[16..];
    r
  }

  /** Value to bytes to value: `uuid(asByteArray(u)) == u`. */
  lemma AsByteArrayRoundTrip(u: Uuid)
    ensures UuidFromBytes(Some(AsByteArray(u))) == Success(u)
  {
    assert AsByteArray(u)[..16] == UuidBytes(u);
    UuidBytesRoundTrip(u);
  }

  /** Bytes to value to bytes: reading the UUID at `offset` and writing it
      back at the same offset leaves the whole buffer as it was. */
  lemma {:induction false} BufferRoundTrip(bytes: seq<Byte>, offset: JInt)
    requires UuidFromBytesAt(Some(bytes), offset).Success?
    ensures ToByteArrayAt(UuidFromBytesAt(Some(bytes), offset).value, Some(bytes), offset) == Success(bytes)
  {
    var u := UuidFromBytesAt(Some(bytes), offset).value;
    UuidOfBytesRoundTrip(bytes[offset..offset + 16]);
    SameBuffer(ToByteArrayAt(u, Some(bytes), offset).value, bytes, offset);
  }

  /** A buffer that agrees with another inside the 16 bytes at `offset` and
      outside them is that buffer. */
  lemma SameBuffer(w: seq<Byte>, bytes: seq<Byte>, offset: nat)
    requires |w| == |bytes| && offset + 16 <= |bytes|
    requires w[offset..offset + 16] == bytes[offset..offset + 16]
    requires forall k :: 0 <= k < |w| && !(offset <= k < offset + 16) ==> w[k] == bytes[k]
    ensures w == bytes
  {
    forall k | 0 <= k < |bytes|
      ensures w[k] == bytes[k]
    {
      if offset <= k < offset + 16 {
        assert w[k] == w[offset..offset + 16][k - offset];
      }
    }
  }

  /** Value to bytes to value at any offset: what `toByteArray` stores,
      `uuid(byte[], int)` reads back. */
  lemma {:induction false} WriteReadRoundTrip(u: Uuid, buffer: seq<Byte>, offset: JInt)
    requires ToByteArrayAt(u, Some(buffer), offset).Success?
    ensures UuidFromBytesAt(Some(ToByteArrayAt(u, Some(buffer), offset).value), offset) == Success(u)
  {
    UuidBytesRoundTrip(u);
  }
}
