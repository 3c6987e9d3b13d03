# UUIDUtil in Dafny

A model of `UUIDUtil`, the stateless utility class at the centre of the
Java UUID generator library. The class encodes, decodes, classifies and
interprets 128-bit UUIDs laid out as section 4 of RFC 9562 describes. It
has five parts, and each is a Dafny module here:

- **StringCodec** (`string_codec.dfy`): `uuid(String)`, the parser of the
  36-character 8-4-4-4-12 hex form. It is modelled twice and the two
  agree. `Parse` is a definition. `ParseUuid` is the source's loop, which
  shifts bytes into `hi` and `lo`. The text formatter `Format` (what
  `java.util.UUID` writes) is the partner used to state round trips.
- **ByteCodec** (`byte_codec.dfy`): `uuid(byte[])`, `uuid(byte[], int)`,
  `asByteArray`, `toByteArray`, `gatherLong`, `_gatherInt`, `_appendInt` and
  the bounds check `_checkUUIDByteArray`.
- **VersionTagger** (`version_tagger.dfy`): `initUUIDFirstLong` (both
  overloads), `initUUIDSecondLong` and both `constructUUID` overloads.
- **TypeClassifier** (`type_classifier.dfy`): `typeOf`.
- **Timestamps** (`timestamps.dfy`): `extractTimestamp` and the raw
  reassemblers for versions 1, 6 and 7.

Shared modules:

- `wrappers.dfy`: `Option` for a Java reference that may be null,
  `Result`/`Outcome` for an exception.
- `java_ints.dfy`: Java's `byte`/`int`/`long` as `bv8`/`bv32`/`bv64`. It
  writes out sign extension, narrowing casts, `int` wrap-around and
  arithmetic versus logical shifts.
- `uuid_layout.dfy`: the UUID value (`msb`, `lsb`), the Nil and Max
  constants, the type enumeration with its raw codes, and the 16-byte
  big-endian layout.
- `scenarios.dfy`: concrete inputs, including the version 1, 6 and 7
  examples of Appendix A of RFC 9562.

Java `byte[]` buffers are `seq<bv8>`. An operation that writes into the
caller's array returns the array's new contents. An exception is the
`Failure` (or `Fail`) arm of a result carrying a small error datatype.

## Model

| member | source | states |
|---|---|---|
| JavaInts.WrapInt | src/main/java/com/fasterxml/uuid/impl/UUIDUtil.java:353 | The Java `int` sum wraps modulo 2^32 into the `int` range and is unchanged inside it |
| JavaInts.SignExtension | src/main/java/com/fasterxml/uuid/impl/UUIDUtil.java:319-321 | Widening `byte`→`int` and `int`→`long` keeps the bits and fills the new high bits with the sign bit |
| JavaInts.ArithmeticShiftToByte | src/main/java/com/fasterxml/uuid/impl/UUIDUtil.java:333-335 | Java's sign-filling `>>` by 24, 16 and 8 followed by `(byte)` equals the zero-filling shift followed by the cast |
| JavaInts.ArithmeticShiftNibble | src/main/java/com/fasterxml/uuid/impl/UUIDUtil.java:247 | `(((int) l) >> 12) & 0xF` gives the same nibble with the sign-filling or the zero-filling shift |
| JavaInts.ArithmeticShiftToInt | src/main/java/com/fasterxml/uuid/impl/UUIDUtil.java:287 | `(int) (hi >> 32)` gives the same `int` with the sign-filling or the zero-filling shift |
| UuidLayout.NilAndMaxBytes | src/main/java/com/fasterxml/uuid/impl/UUIDUtil.java:24-29 | Nil is sixteen zero bytes with version 0; Max is sixteen `0xFF` bytes with version 15 |
| UuidLayout.RawInjective | src/main/java/com/fasterxml/uuid/impl/UUIDUtil.java:248-270 | Distinct types have distinct raw codes, so `typeOf` maps each nibble 0-8 to one type |
| UuidLayout.UuidBytesRoundTrip | src/main/java/com/fasterxml/uuid/impl/UUIDUtil.java:282-291 | A UUID written as its 16-byte big-endian layout reads back as the same UUID |
| UuidLayout.UuidOfBytesRoundTrip | src/main/java/com/fasterxml/uuid/impl/UUIDUtil.java:156-161 | Any 16 bytes read as a UUID and written back are the same 16 bytes |
| ByteCodec.CheckByteArray | src/main/java/com/fasterxml/uuid/impl/UUIDUtil.java:345-356 | Passes exactly for a non-null buffer, a non-negative offset and 16 bytes of room; otherwise fails with the first of null, negative offset, no room, each error iff its condition |
| ByteCodec.CheckByteArrayAsWritten | src/main/java/com/fasterxml/uuid/impl/UUIDUtil.java:345-356 | `_checkUUIDByteArray` as written, with the wrapping `int` sum of line 353: fails with the null error iff the array is null and with the negative-offset error iff it is non-null and the offset negative, and passes only for a non-null array and a non-negative offset; `CheckAsWrittenAgrees` and `CheckAsWrittenOverflows` state where its room test agrees with the exact one and where it does not |
| ByteCodec.CheckAsWrittenAgrees | src/main/java/com/fasterxml/uuid/impl/UUIDUtil.java:353 | The source's wrapping `offset + 16 > length` test agrees with the exact one whenever `offset <= MaxInt - 16` |
| ByteCodec.CheckAsWrittenOverflows | src/main/java/com/fasterxml/uuid/impl/UUIDUtil.java:353 | For `offset > MaxInt - 16` the test as written passes every non-null array, which the exact check refuses |
| ByteCodec.JavaGatherInt | src/main/java/com/fasterxml/uuid/impl/UUIDUtil.java:339-343 | The sign-extended, masked expression of `_gatherInt` is the big-endian `int` of the four bytes |
| ByteCodec.GatherInt | src/main/java/com/fasterxml/uuid/impl/UUIDUtil.java:339-343 | `_gatherInt` reads the four bytes at `offset` as a big-endian `int` |
| ByteCodec.JoinInts | src/main/java/com/fasterxml/uuid/impl/UUIDUtil.java:319-322 | `gatherLong`'s join puts the high `int` in bits 32-63 and the low `int` in bits 0-31, with the low one's sign extension cleared |
| ByteCodec.ConcatInts | src/main/java/com/fasterxml/uuid/impl/UUIDUtil.java:317-323 | Two big-endian `int`s side by side are the big-endian `long` of their eight bytes |
| ByteCodec.JavaGatherLong | src/main/java/com/fasterxml/uuid/impl/UUIDUtil.java:317-323 | The expression of `gatherLong` on eight bytes is their big-endian `long` |
| ByteCodec.GatherLong | src/main/java/com/fasterxml/uuid/impl/UUIDUtil.java:317-323 | `gatherLong` reads the eight bytes at `offset` as a big-endian `long` |
| ByteCodec.GatherLongSlice | src/main/java/com/fasterxml/uuid/impl/UUIDUtil.java:317-323 | `gatherLong` at `offset` is the big-endian value of the slice `[offset, offset + 8)` |
| ByteCodec.IntBytes | src/main/java/com/fasterxml/uuid/impl/UUIDUtil.java:331-337 | The four bytes `_appendInt` stores read back, big-endian, as the `int` |
| ByteCodec.AppendInt | src/main/java/com/fasterxml/uuid/impl/UUIDUtil.java:331-337 | `_appendInt` stores the `int`'s four bytes at `offset` and changes no other index |
| ByteCodec.AppendGather | src/main/java/com/fasterxml/uuid/impl/UUIDUtil.java:331-343 | What `_appendInt` stores at an offset, `_gatherInt` reads back |
| ByteCodec.LongBytesAsInts | src/main/java/com/fasterxml/uuid/impl/UUIDUtil.java:287-288 | A `long`'s eight bytes are those of `(int) (x >> 32)` then those of `(int) x` |
| ByteCodec.UuidBytesAsInts | src/main/java/com/fasterxml/uuid/impl/UUIDUtil.java:287-290 | The UUID layout is the four `int`s the four `_appendInt` calls write, in order |
| ByteCodec.FourWrites | src/main/java/com/fasterxml/uuid/impl/UUIDUtil.java:303-306 | Four adjacent 4-byte writes, each with its frame, store their concatenation and leave the rest of the buffer alone |
| ByteCodec.WriteUuid | src/main/java/com/fasterxml/uuid/impl/UUIDUtil.java:303-306 | The four `_appendInt` calls store the UUID's 16-byte layout at `offset` and change nothing outside it |
| ByteCodec.UuidFromBytesAt | src/main/java/com/fasterxml/uuid/impl/UUIDUtil.java:173-177 | `uuid(byte[], int)` succeeds iff the bounds check passes, fails with the check's error otherwise, and returns the UUID whose layout is the 16 bytes at `offset` |
| ByteCodec.UuidFromBytes | src/main/java/com/fasterxml/uuid/impl/UUIDUtil.java:156-162 | `uuid(byte[])` succeeds iff the array is non-null with at least 16 bytes, fails with `NullBuffer` or `NoRoom(0)`, and reads the first 16 bytes |
| ByteCodec.AsByteArray | src/main/java/com/fasterxml/uuid/impl/UUIDUtil.java:282-292 | `asByteArray` returns exactly the 16-byte big-endian layout of the UUID |
| ByteCodec.ToByteArrayAt | src/main/java/com/fasterxml/uuid/impl/UUIDUtil.java:298-307 | `toByteArray(u, buf, off)` fails iff the check fails, writing nothing; on success it stores the layout at `off` and keeps every other index |
| ByteCodec.ToByteArray | src/main/java/com/fasterxml/uuid/impl/UUIDUtil.java:294-296 | At offset 0 the result is the layout followed by the buffer's bytes from 16 on |
| ByteCodec.AsByteArrayRoundTrip | src/main/java/com/fasterxml/uuid/impl/UUIDUtil.java:156-162 | `uuid(asByteArray(u)) == u` for every UUID |
| ByteCodec.BufferRoundTrip | src/main/java/com/fasterxml/uuid/impl/UUIDUtil.java:173-177 | Reading the UUID at a valid offset and writing it back at that offset returns the whole buffer unchanged |
| ByteCodec.SameBuffer | src/main/java/com/fasterxml/uuid/impl/UUIDUtil.java:298-307 | Buffers that agree inside and outside the 16 bytes at an offset are equal |
| ByteCodec.WriteReadRoundTrip | src/main/java/com/fasterxml/uuid/impl/UUIDUtil.java:298-307 | What `toByteArray` stores at an offset, `uuid(byte[], int)` reads back as the same UUID |
| StringCodec.DigitValueByCode | src/main/java/com/fasterxml/uuid/impl/UUIDUtil.java:116-121 | A digit's value is `c - '0'`, `c - 'a' + 10` or `c - 'A' + 10` according to its range |
| StringCodec.DigitOfHex | src/main/java/com/fasterxml/uuid/impl/UUIDUtil.java:116-121 | Every value below 16 has a lower-case digit that the parser reads back as that value |
| StringCodec.HexOfDigit | src/main/java/com/fasterxml/uuid/impl/UUIDUtil.java:116-121 | The parser's digit value, written back as a digit, is the digit in lower case |
| StringCodec.LowerCharKeeps | src/main/java/com/fasterxml/uuid/impl/UUIDUtil.java:116-135 | Case folding keeps hyphens, digits and non-digits apart and keeps digit values |
| StringCodec.ByteOfNibbles | src/main/java/com/fasterxml/uuid/impl/UUIDUtil.java:126-139 | The byte of two digit values has those values as its high and low nibbles |
| StringCodec.NibblesOfByte | src/main/java/com/fasterxml/uuid/impl/UUIDUtil.java:126-139 | Every byte is the byte of its two nibbles |
| StringCodec.CurrIsByte | src/main/java/com/fasterxml/uuid/impl/UUIDUtil.java:126-139 | The parser's `int` `curr`, the first digit value shifted left by 4 and or-ed with the second, is the byte of the two digit values |
| StringCodec.DigitPositions | src/main/java/com/fasterxml/uuid/impl/UUIDUtil.java:100-112 | The 32 digit positions are exactly the non-hyphen positions 0-35, in order |
| StringCodec.FirstMalformed | src/main/java/com/fasterxml/uuid/impl/UUIDUtil.java:100-139 | Finds the first position that is not a hyphen where one is required, or not a hex digit elsewhere, and only such a position |
| StringCodec.FirstMalformedIs | src/main/java/com/fasterxml/uuid/impl/UUIDUtil.java:100-139 | A malformed position preceded only by well-formed ones is the one reported |
| StringCodec.ParseText | src/main/java/com/fasterxml/uuid/impl/UUIDUtil.java:93-146 | Success iff the text is canonical, with the bytes its digit pairs spell; otherwise the length error iff the length is not 36, else the error of the first malformed position |
| StringCodec.Parse | src/main/java/com/fasterxml/uuid/impl/UUIDUtil.java:88-148 | `uuid(String)` fails with the null error iff the input is null and succeeds iff the text is canonical; otherwise it returns the text's error |
| StringCodec.ParseSpellsLayout | src/main/java/com/fasterxml/uuid/impl/UUIDUtil.java:140-147 | The parsed UUID's 16-byte layout is the bytes the 32 digits spell, first eight into `msb` |
| StringCodec.ByteStep | src/main/java/com/fasterxml/uuid/impl/UUIDUtil.java:100-145 | Each loop iteration skips a hyphen exactly at a hyphen position, reads two adjacent digits and starts the next byte right after |
| StringCodec.PackSnoc | src/main/java/com/fasterxml/uuid/impl/UUIDUtil.java:140-144 | Shifting one more byte into the accumulator packs a prefix one byte longer |
| StringCodec.PackEight | src/main/java/com/fasterxml/uuid/impl/UUIDUtil.java:140-144 | Eight bytes shifted into a zero `long` give their big-endian value |
| StringCodec.PackHalves | src/main/java/com/fasterxml/uuid/impl/UUIDUtil.java:140-147 | Bytes 0-7 shifted into `hi` and 8-15 into `lo` give the UUID with that layout |
| StringCodec.ShiftIn | src/main/java/com/fasterxml/uuid/impl/UUIDUtil.java:141-143 | Shifting the accumulator left by 8 and or-ing in the sign-extended `curr` shifts in one more byte |
| StringCodec.ReadDigit | src/main/java/com/fasterxml/uuid/impl/UUIDUtil.java:113-139 | A non-hex character ends the parse with the error for its position; otherwise its value is returned |
| StringCodec.SkipHyphen | src/main/java/com/fasterxml/uuid/impl/UUIDUtil.java:103-112 | At positions 8, 13, 18 and 23 anything but `-` ends the parse with the missing-hyphen error; a hyphen is skipped |
| StringCodec.ReadByte | src/main/java/com/fasterxml/uuid/impl/UUIDUtil.java:103-139 | One iteration's reading either ends the parse with the definition's error or yields the byte of the next two digits and the next position |
| StringCodec.StoreByte | src/main/java/com/fasterxml/uuid/impl/UUIDUtil.java:140-144 | Bytes 0-7 are shifted into `hi` and bytes 8-15 into `lo` |
| StringCodec.ParseUuid | src/main/java/com/fasterxml/uuid/impl/UUIDUtil.java:88-148 | The source's loop computes exactly `Parse`: the same UUID or the same error for every input |
| StringCodec.FormatIsCanonical | src/main/java/com/fasterxml/uuid/impl/UUIDUtil.java:85-86 | The lower-case text form of any UUID is in the canonical form the parser accepts |
| StringCodec.Format | src/main/java/com/fasterxml/uuid/impl/UUIDUtil.java:83-86 | The lower-case text form `java.util.UUID` writes is always canonical; `ParseFormat` and `FormatParse` make it the parser's inverse |
| StringCodec.ParseFormat | src/main/java/com/fasterxml/uuid/impl/UUIDUtil.java:83-88 | Parsing the text form of any UUID gives that UUID |
| StringCodec.FormatParse | src/main/java/com/fasterxml/uuid/impl/UUIDUtil.java:83-88 | A canonical text parses, and its UUID's text form is the input with its hex letters in lower case |
| StringCodec.FormatParseText | src/main/java/com/fasterxml/uuid/impl/UUIDUtil.java:83-88 | Formatting the bytes a canonical text spells gives back the text in lower case |
| StringCodec.ParseIgnoresCase | src/main/java/com/fasterxml/uuid/impl/UUIDUtil.java:85-86 | A text and its lower-case fold parse to the same UUID or the same error |
| VersionTagger.InitFirstLong | src/main/java/com/fasterxml/uuid/impl/UUIDUtil.java:211-216 | For a raw type below 16 the result is `l1` with bits 12-15 replaced by the raw type |
| VersionTagger.InitFirstLongFields | src/main/java/com/fasterxml/uuid/impl/UUIDUtil.java:211-216 | Bits 0-11 are always kept; for a raw type below 16 the version field is the raw type and every other bit is kept |
| VersionTagger.InitFirstLongOfType | src/main/java/com/fasterxml/uuid/impl/UUIDUtil.java:206-209 | The type overload sets the version field to the type's raw code |
| VersionTagger.InitSecondLong | src/main/java/com/fasterxml/uuid/impl/UUIDUtil.java:218-223 | `lsb` with its top two bits replaced by `10` |
| VersionTagger.InitSecondLongFields | src/main/java/com/fasterxml/uuid/impl/UUIDUtil.java:218-223 | The result's top two bits are `10` and bits 0-61 are those of `l2` |
| VersionTagger.InitFirstLongIdempotent | src/main/java/com/fasterxml/uuid/impl/UUIDUtil.java:211-216 | Stamping a raw type twice is stamping it once, for any raw type |
| VersionTagger.InitSecondLongIdempotent | src/main/java/com/fasterxml/uuid/impl/UUIDUtil.java:218-223 | Stamping the variant twice is stamping it once |
| VersionTagger.ConstructFromLongsIsInit | src/main/java/com/fasterxml/uuid/impl/UUIDUtil.java:195-204 | The `long` overload of `constructUUID` is `(initUUIDFirstLong(l1, type), initUUIDSecondLong(l2))` |
| VersionTagger.ConstructedFields | src/main/java/com/fasterxml/uuid/impl/UUIDUtil.java:195-204 | The constructed UUID has the type's version, variant `10` and every other bit of `l1` and `l2` |
| VersionTagger.ConstructFromLongs | src/main/java/com/fasterxml/uuid/impl/UUIDUtil.java:195-204 | `constructUUID(UUIDType, long, long)`, with no contract of its own: `ConstructFromLongsIsInit`, `ConstructedFields` and `TypeOfConstructed` state what it returns |
| VersionTagger.TagVersionByte | src/main/java/com/fasterxml/uuid/impl/UUIDUtil.java:185-187 | For a raw type below 16, byte 6 keeps its low nibble and takes the raw type as its high nibble |
| VersionTagger.TagVariantByte | src/main/java/com/fasterxml/uuid/impl/UUIDUtil.java:189-191 | Byte 8 keeps its low six bits and takes `10` as its top two |
| VersionTagger.TagBytes | src/main/java/com/fasterxml/uuid/impl/UUIDUtil.java:182-191 | The array keeps its length and every byte except 6 and 8, which are retagged |
| VersionTagger.ConstructFromBytes | src/main/java/com/fasterxml/uuid/impl/UUIDUtil.java:182-193 | The array after the call is the retagged array, and the result is the UUID its first 16 bytes spell |
| VersionTagger.TagFirstLong | src/main/java/com/fasterxml/uuid/impl/UUIDUtil.java:185-187 | Retagging byte 6 of eight bytes is `initUUIDFirstLong` on their `long` |
| VersionTagger.TagSecondLong | src/main/java/com/fasterxml/uuid/impl/UUIDUtil.java:189-191 | Retagging byte 8 is `initUUIDSecondLong` on the second `long` |
| VersionTagger.TaggedHalves | src/main/java/com/fasterxml/uuid/impl/UUIDUtil.java:182-193 | The byte overload's UUID is the untagged bytes' two `long`s with bytes 6 and 8 retagged |
| VersionTagger.ConstructOverloadsAgree | src/main/java/com/fasterxml/uuid/impl/UUIDUtil.java:182-204 | The byte overload returns what the `long` overload returns for `gatherLong(b, 0)` and `gatherLong(b, 8)` |
| TypeClassifier.TypeNibble | src/main/java/com/fasterxml/uuid/impl/UUIDUtil.java:247 | The nibble `typeOf` switches on is below 16 |
| TypeClassifier.TypeNibbleIsVersion | src/main/java/com/fasterxml/uuid/impl/UUIDUtil.java:245-247 | The nibble is bits 12-15 of `msb`, the version field |
| TypeClassifier.TypeOf | src/main/java/com/fasterxml/uuid/impl/UUIDUtil.java:240-274 | Null for a null UUID; `UNKNOWN` iff the UUID is Nil; otherwise a type whose raw code is the nibble, present for every nibble 1-8 |
| TypeClassifier.TypeOfUnrecognised | src/main/java/com/fasterxml/uuid/impl/UUIDUtil.java:271-273 | A version field above 8 gives null |
| TypeClassifier.TypeOfConstructed | src/main/java/com/fasterxml/uuid/impl/UUIDUtil.java:195-204 | A UUID built by `constructUUID` with any type but `UNKNOWN` classifies as that type; one built with `UNKNOWN` gives null |
| Timestamps.RawV1Fields | src/main/java/com/fasterxml/uuid/impl/UUIDUtil.java:402-410 | `time_low`, `time_mid` and `time_high` land in bits 0-31, 32-47 and 48-59; bits 13-15 of `msb` leak into bits 61-63 |
| Timestamps.RawV1 | src/main/java/com/fasterxml/uuid/impl/UUIDUtil.java:402-410 | `_getRawTimestampFromUuidV1`, with no contract of its own: `RawV1Fields`, `RawV1Formula`, `RawV1Bound` and the two v1 round trips state it |
| Timestamps.RawV1Formula | src/main/java/com/fasterxml/uuid/impl/UUIDUtil.java:402-410 | For version 1 the raw value is bits 0-11 above bits 16-31 above bits 32-63 of `msb` |
| Timestamps.RawV1Bound | src/main/java/com/fasterxml/uuid/impl/UUIDUtil.java:402-410 | For version 1 the raw value is below 2^60 |
| Timestamps.V1Msb | src/main/java/com/fasterxml/uuid/impl/UUIDUtil.java:394-401 | The version 1 `msb` built from a 60-bit timestamp carries version 1 |
| Timestamps.RawV1RoundTrip | src/main/java/com/fasterxml/uuid/impl/UUIDUtil.java:402-410 | The v1 reader recovers the timestamp a version 1 `msb` was built from |
| Timestamps.V1MsbRoundTrip | src/main/java/com/fasterxml/uuid/impl/UUIDUtil.java:402-410 | For version 1 the reader loses nothing: rebuilding from the raw value gives back `msb` |
| Timestamps.RawV6Formula | src/main/java/com/fasterxml/uuid/impl/UUIDUtil.java:420-428 | The v6 raw value is bits 32-63 above bits 16-31 above bits 0-11 of `msb`, whatever the version |
| Timestamps.RawV6 | src/main/java/com/fasterxml/uuid/impl/UUIDUtil.java:420-428 | `_getRawTimestampFromUuidV6`, with no contract of its own: `RawV6Formula`, `RawV6Bound`, `RawV6IgnoresVersion` and the two v6 round trips state it |
| Timestamps.RawV6Bound | src/main/java/com/fasterxml/uuid/impl/UUIDUtil.java:420-428 | The v6 raw value is below 2^60 for every UUID |
| Timestamps.RawV6IgnoresVersion | src/main/java/com/fasterxml/uuid/impl/UUIDUtil.java:420-428 | The v6 raw value does not depend on bits 12-15 of `msb` nor on `lsb` |
| Timestamps.V6Msb | src/main/java/com/fasterxml/uuid/impl/UUIDUtil.java:412-419 | The version 6 `msb` built from a 60-bit timestamp carries version 6 |
| Timestamps.RawV6RoundTrip | src/main/java/com/fasterxml/uuid/impl/UUIDUtil.java:420-428 | The v6 reader recovers the timestamp a version 6 `msb` was built from |
| Timestamps.V6MsbRoundTrip | src/main/java/com/fasterxml/uuid/impl/UUIDUtil.java:420-428 | For version 6 the reader loses nothing: rebuilding from the raw value gives back `msb` |
| Timestamps.RawV7 | src/main/java/com/fasterxml/uuid/impl/UUIDUtil.java:430-434 | The v7 raw value is below 2^48 |
| Timestamps.RawV7IsTop | src/main/java/com/fasterxml/uuid/impl/UUIDUtil.java:430-434 | The v7 raw value is `msb >>> 16`: the mask does not reach it |
| Timestamps.V7Msb | src/main/java/com/fasterxml/uuid/impl/UUIDUtil.java:430-434 | The version 7 `msb` built from a 48-bit millisecond count carries version 7 |
| Timestamps.RawV7RoundTrip | src/main/java/com/fasterxml/uuid/impl/UUIDUtil.java:430-434 | The v7 reader recovers the millisecond count a version 7 `msb` was built from |
| Timestamps.V7MsbRoundTrip | src/main/java/com/fasterxml/uuid/impl/UUIDUtil.java:430-434 | For version 7, rebuilding from the raw value and `rand_a` gives back `msb` |
| Timestamps.ExtractTimestamp | src/main/java/com/fasterxml/uuid/impl/UUIDUtil.java:368-392 | 0 for a null UUID and every type without a timestamp; below 2^48 for `TIME_BASED_EPOCH` |
| Timestamps.ExtractFromV1 | src/main/java/com/fasterxml/uuid/impl/UUIDUtil.java:383-384 | A version 1 UUID gives the epoch conversion of the timestamp it was built from |
| Timestamps.ExtractFromV6 | src/main/java/com/fasterxml/uuid/impl/UUIDUtil.java:385-386 | A version 6 UUID gives the epoch conversion of the timestamp it was built from |
| Timestamps.ExtractFromV7 | src/main/java/com/fasterxml/uuid/impl/UUIDUtil.java:387-388 | A version 7 UUID gives the millisecond count it was built from, unconverted |
| Scenarios.UniformText | src/main/java/com/fasterxml/uuid/impl/UUIDUtil.java:88-148 | A text of one repeated hex digit parses to the UUID whose sixteen bytes repeat that digit pair |
| Scenarios.NilScenario | src/main/java/com/fasterxml/uuid/impl/UUIDUtil.java:249-253 | The all-zero text parses to Nil, which classifies as `UNKNOWN` and has timestamp 0 |
| Scenarios.MaxScenario | src/main/java/com/fasterxml/uuid/impl/UUIDUtil.java:88-148 | The all-`f` text parses to Max |
| Scenarios.MaxType | src/main/java/com/fasterxml/uuid/impl/UUIDUtil.java:271-273 | Max (nibble 15) classifies as null |
| Scenarios.V1Scenario | src/main/java/com/fasterxml/uuid/impl/UUIDUtil.java:255-256 | `00112233-4455-1677-8899-aabbccddeeff` is `TIME_BASED`, with raw timestamp `0x0677_4455_0011_2233` |
| Scenarios.RfcV1Vector | src/main/java/com/fasterxml/uuid/impl/UUIDUtil.java:402-410 | The version 1 example of RFC 9562 Appendix A.1 is `TIME_BASED` with timestamp `0x1EC9414C232AB00` |
| Scenarios.RfcV6Vector | src/main/java/com/fasterxml/uuid/impl/UUIDUtil.java:420-428 | The version 6 example of RFC 9562 Appendix A.5 is `TIME_BASED_REORDERED` with the same timestamp |
| Scenarios.RfcV7Vector | src/main/java/com/fasterxml/uuid/impl/UUIDUtil.java:430-434 | The version 7 example of RFC 9562 Appendix A.6 gives `0x017F22E279B0` milliseconds |
| Scenarios.V7Scenario | src/main/java/com/fasterxml/uuid/impl/UUIDUtil.java:387-388 | A version 7 UUID with top 48 bits `0x018C1B2A6D80` is `TIME_BASED_EPOCH` and gives that count |
| Scenarios.ShortScenario | src/main/java/com/fasterxml/uuid/impl/UUIDUtil.java:93-95 | A 35-character text fails with the length error |
| Scenarios.AstralScenario | src/main/java/com/fasterxml/uuid/impl/UUIDUtil.java:93-95 | In the model, which counts Unicode characters, 34 ASCII characters followed by U+1F600 fail with `WrongLength(35)`; Java counts 36 UTF-16 units, passes the length check and reports the non-hex `g` at 0 (see Left out) |
| Scenarios.NoRoomScenario | src/main/java/com/fasterxml/uuid/impl/UUIDUtil.java:353-355 | Offset 10 of a 20-byte buffer fails with the no-room error for reading and for writing |

## Left out

- `UUIDTimer.timestampToEpoch` (called at lines 384 and 386) is not part of this model. It is the parameter `toEpoch` of `ExtractTimestamp`, and the Gregorian-to-Unix arithmetic is not modelled.
- `UUIDType` is not part of this model. `UuidLayout.UuidType` assumes it has exactly the nine constants `typeOf` returns, with raw codes 0-8. Under that assumption the `default` branch of `extractTimestamp` (lines 389-390) cannot be reached, and the exhaustive match drops it.
- `java.util.UUID` is modelled only as its two halves; `toString` is modelled as `StringCodec.Format`, and object identity is not modelled.
- The public constructor (line 39) is not modelled; it has no behaviour. The offset constants (lines 10-19) appear only as the literal indices 6 and 8.
- Exception messages are not modelled, including the text built with `Integer.toHexString` at lines 123-124. Errors are datatypes that carry the position and the character.
- StringCodec.ParseText: text is modelled as a sequence of Unicode characters, whereas Java's `length()` and `charAt` (lines 93, 114 and 128) count UTF-16 code units. For text holding a character outside the Basic Multilingual Plane, the length and every later position differ, so the reported error can differ. For example, `g000000-0000-0000-0000-00000000000` followed by U+1F600 is 35 characters in the model, which fails with `WrongLength(35)`. It is 36 units in Java, which reports the non-hex `g` at position 0. A string holding an unpaired surrogate, which a Java `String` may, cannot be represented at all. No such text parses in either, so successes and parsed values agree.
- StringCodec.Parse: follows `ParseText` and has the same difference for text outside the Basic Multilingual Plane.
- StringCodec.FormatError: `MissingHyphen` records the position and `WrongLength` the length, although the source's messages for these cases (lines 94 and 109) carry neither. The two messages are the same text, so a Java caller cannot tell a wrong length from a missing hyphen, while the model can.
- The null-reference exceptions of the class are not modelled except for the null string of `uuid(String)`, the null UUID of `typeOf` and the null array of the bounds check. The remaining parameters are plain values in the model:
  - a null UUID passed to `asByteArray`, `toByteArray`, `extractTimestamp`'s readers or `_getRawTimestampFromUuidV1`/`V6`/`V7`;
  - a null `UUIDType` passed to `initUUIDFirstLong(long, UUIDType)` (line 208) or to either `constructUUID` (lines 186 and 199);
  - a null array passed to `constructUUID(UUIDType, byte[])` (line 185).
- VersionTagger.ConstructFromBytes: requires at least 16 bytes. The source writes bytes 6 and 8 before `uuid(byte[])` checks the length, so a shorter array fails after being modified (or out of bounds for fewer than 9 bytes). That path is not modelled.
- VersionTagger.ConstructFromLongs: has no contract of its own; what it computes is stated by `ConstructFromLongsIsInit` and `ConstructedFields`.
- VersionTagger.InitFirstLong: its contract assumes a raw type below 16. A larger `int` would spill past the version field; only that bits 0-11 are kept is stated for every raw type (`InitFirstLongFields`).
- VersionTagger.TagVersionByte: its contract assumes a raw type below 16, for the same reason.
- TypeClassifier.TypeNibble: its contract states only the bound; that the nibble is the version field is stated by `TypeNibbleIsVersion`.
- Timestamps.ExtractTimestamp: states the zero cases and the version 7 bound; the values for versions 1, 6 and 7 are stated by `ExtractFromV1`, `ExtractFromV6` and `ExtractFromV7` for UUIDs built from a timestamp.
- ByteCodec.UuidFromBytesAt: uses the corrected bounds check `CheckByteArray`, so it fails with `NoRoom` for every offset above `MaxInt - 16`. For those offsets the source's wrapping test at line 353 passes, and `_gatherInt` (line 341) then throws an index-out-of-bounds exception. See Findings.
- ByteCodec.ToByteArrayAt: uses the corrected bounds check as well, so for an offset above `MaxInt - 16` it fails with `NoRoom` and writes nothing. In the source the check passes there. The four `_appendInt` calls (lines 303-306) then store whatever bytes fit before the end of the array, and the first store past it throws. The source thus partially writes the buffer; this is not modelled. See Findings.
- Scenarios.V1Scenario: states the classification and raw timestamp of the UUID `00112233-4455-1677-8899-aabbccddeeff` as a value. It does not prove that this literal text parses to that value; the all-zero and all-`f` texts are proved through `UniformText`, and every text form through `ParseFormat`.

Two behaviours of the code to note:

- A 35-character text such as `0011223-4455-4677-8899-aabbccddeeff` fails with the length error before any hyphen is examined (lines 93-95; `ShortScenario`).
- The version 1 reader's mask clears only bit 12 of the version nibble, and the version 6 and 7 readers' mask only bits 13-14 (lines 404, 422 and 432). For a version 1 UUID bits 13-15 are zero anyway; for any other nibble they leak into bits 61-63 of the v1 raw value (`RawV1Fields`). The v6 and v7 results never contain bits 12-15.

## Findings

| source | as written | input that shows it | evidently intended | confidence | as-written member | corrected member |
|---|---|---|---|---|---|---|
| src/main/java/com/fasterxml/uuid/impl/UUIDUtil.java:353 | `(offset + 16) > bytes.length` is an `int` sum, which wraps to a negative number for `offset > Integer.MAX_VALUE - 16`, so the check passes | any non-null array with `offset = 2147483640` | reject every offset without 16 bytes of room with the `IllegalArgumentException` before touching the array. As written, `uuid(byte[], int)` instead throws an index-out-of-bounds exception from `_gatherInt`. `toByteArray` stores the bytes that fit between the offset and the end of the array, then throws the same exception. When the array is longer than the offset, this leaves the buffer partly written | not executed | ByteCodec.CheckByteArrayAsWritten, ByteCodec.CheckAsWrittenOverflows | ByteCodec.CheckByteArray |
