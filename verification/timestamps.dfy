/** Reading the timestamp back out of a time-based UUID: the raw field
    reassembly for versions 1, 6 and 7 (sections 5.1, 5.6 and 5.7 of
    RFC 9562), and `extractTimestamp`, which picks one by the UUID's type. */
module Timestamps {
  import opened Wrappers
  import opened JavaInts
  import opened UuidLayout
  import opened TypeClassifier

  /** The mask the version 1 reader applies: it clears bit 12 only. */
  const MaskV1: Long := 0xFFFF_FFFF_FFFF_EFFF

  /** The mask the version 6 and 7 readers apply: it clears bits 13-14 only. */
  const MaskV6: Long := 0xFFFF_FFFF_FFFF_9FFF

  /** One past the largest 60-bit count of 100-nanosecond intervals. */
  const Bound60: Long := 0x1000_0000_0000_0000

  /** One past the largest 48-bit count of milliseconds. */
  const Bound48: Long := 0x1_0000_0000_0000

  /** `_getRawTimestampFromUuidV1`: `time_low` (bits 32-63 of `msb`) becomes
      bits 0-31, `time_mid` (bits 16-31) bits 32-47 and `time_high` with
      the version bits left after the mask (bits 0-15) bits 48-63. */
  function RawV1(u: Uuid): Long
  {
    var m := u.msb & MaskV1;
    var low := m >> 32;
    var lowOfHigher := (m & 0xFFFF_0000) >> 16;
    var highOfHigher := m & 0xFFFF;
    (highOfHigher << 48) | (lowOfHigher << 32) | low
  }

  /** Where each field of `msb` lands in the version 1 raw value; bits 13-15
      of the version field leak into bits 61-63 because the mask clears only
      bit 12. */
  lemma RawV1Fields(u: Uuid)
    ensures RawV1(u) & 0xFFFF_FFFF == u.msb >> 32
    ensures (RawV1(u) >> 32) & 0xFFFF == (u.msb >> 16) & 0xFFFF
    ensures (RawV1(u) >> 48) & 0xFFF == u.msb & 0xFFF
    ensures RawV1(u) >> 60 == (u.msb >> 12) & 0xE
  {
  }

  /** With version 1 in the version field the raw value fits in 60 bits. */
  lemma {:induction false} RawV1Bound(u: Uuid)
    requires Version(u) == 1
    ensures RawV1(u) < Bound60
  {
    RawV1Fields(u);
  }

  /** For a version 1 UUID the raw value is `time_high` (bits 0-11 of `msb`)
      above `time_mid` (bits 16-31) above `time_low` (bits 32-63). */
  lemma RawV1Formula(u: Uuid)
    requires Version(u) == 1
    ensures RawV1(u) == ((u.msb & 0xFFF) << 48) | (((u.msb >> 16) & 0xFFFF) << 32) | (u.msb >> 32)
  {
  }

  /** The `msb` section 5.1 of RFC 9562 lays out for a 60-bit timestamp:
      `time_low`, `time_mid`, version 1 and `time_high`. */
  function V1Msb(ts: Long): (msb: Long)
    requires ts < Bound60
    ensures Version(Uuid(msb, 0)) == 1
  {
    ((ts & 0xFFFF_FFFF) << 32) | (((ts >> 32) & 0xFFFF) << 16) | 0x1000 | ((ts >> 48) & 0xFFF)
  }

  /** Timestamp to version 1 UUID to timestamp. */
  lemma RawV1RoundTrip(ts: Long, lsb: Long)
    requires ts < Bound60
    ensures RawV1(Uuid(V1Msb(ts), lsb)) == ts
  {
  }

  /** Version 1 `msb` to timestamp to `msb`: the reader loses nothing but the
      version field. */
  lemma {:induction false} V1MsbRoundTrip(u: Uuid)
    requires Version(u) == 1
    ensures RawV1(u) < Bound60 && V1Msb(RawV1(u)) == u.msb
  {
    RawV1Bound(u);
  }

  /** `_getRawTimestampFromUuidV6`: bits 32-63 of `msb` become bits 28-59,
      bits 16-31 bits 12-27 and bits 0-11 bits 0-11. */
  function RawV6(u: Uuid): Long
  {
    var m := u.msb & MaskV6;
    var lowL := m & 0xFFF;
    var lowH := (m & 0xFFFF_0000) >> 16;
    var high := m & 0xFFFF_FFFF_0000_0000;
    (high >> 4) | (lowH << 12) | lowL
  }

  /** The version 6 raw value is bits 32-63 of `msb` above bits 16-31
      above bits 0-11, whatever the version field holds. */
  lemma RawV6Formula(u: Uuid)
    ensures RawV6(u) == ((u.msb >> 32) << 28) | (((u.msb >> 16) & 0xFFFF) << 12) | (u.msb & 0xFFF)
  {
  }

  /** The version 6 raw value always fits in 60 bits. */
  lemma RawV6Bound(u: Uuid)
    ensures RawV6(u) < Bound60
  {
  }

  /** The version 6 raw value ignores the version field and the second half. */
  lemma RawV6IgnoresVersion(msb: Long, lsb: Long, lsb': Long)
    ensures RawV6(Uuid(msb, lsb)) == RawV6(Uuid(msb & !VersionMask, lsb'))
  {
  }

  /** The `msb` section 5.6 of RFC 9562 lays out for a 60-bit timestamp: its
      top 32 bits, the next 16, version 6 and the low 12. */
  function V6Msb(ts: Long): (msb: Long)
    requires ts < Bound60
    ensures Version(Uuid(msb, 0)) == 6
  {
    ((ts >> 28) << 32) | (((ts >> 12) & 0xFFFF) << 16) | 0x6000 | (ts & 0xFFF)
  }

  /** Timestamp to version 6 UUID to timestamp. */
  lemma RawV6RoundTrip(ts: Long, lsb: Long)
    requires ts < Bound60
    ensures RawV6(Uuid(V6Msb(ts), lsb)) == ts
  {
  }

  /** Version 6 `msb` to timestamp to `msb`. */
  lemma {:induction false} V6MsbRoundTrip(u: Uuid)
    requires Version(u) == 6
    ensures RawV6(u) < Bound60 && V6Msb(RawV6(u)) == u.msb
  {
    RawV6Bound(u);
  }

  /** `_getRawTimestampFromUuidV7`: the top 48 bits of `msb`. */
  function RawV7(u: Uuid): (r: Long)
    ensures r < Bound48
  {
    (u.msb & MaskV6) >> 16
  }

  /** The mask does not reach the top 48 bits: the raw value is `unix_ts_ms`. */
  lemma RawV7IsTop(u: Uuid)
    ensures RawV7(u) == u.msb >> 16
  {
  }

  /** The `msb` section 5.7 of RFC 9562 lays out for a 48-bit millisecond
      count and the 12 bits of `rand_a`. */
  function V7Msb(ms: Long, randA: Long): (msb: Long)
    requires ms < Bound48 && randA < 0x1000
    ensures Version(Uuid(msb, 0)) == 7
  {
    (ms << 16) | 0x7000 | randA
  }

  /** Milliseconds to version 7 UUID to milliseconds. */
  lemma RawV7RoundTrip(ms: Long, randA: Long, lsb: Long)
    requires ms < Bound48 && randA < 0x1000
    ensures RawV7(Uuid(V7Msb(ms, randA), lsb)) == ms
  {
  }

  /** Version 7 `msb` to milliseconds and `rand_a` to `msb`. */
  lemma V7MsbRoundTrip(u: Uuid)
    requires Version(u) == 7
    ensures V7Msb(RawV7(u), u.msb & 0xFFF) == u.msb
  {
  }

  /** The types `extractTimestamp` reads a timestamp from. */
  predicate IsTimeBased(t: Option<UuidType>)
  {
    t == Some(TimeBased) || t == Some(TimeBasedReordered) || t == Some(TimeBasedEpoch)
  }

  /** `extractTimestamp`: 0 for a null UUID and for every type without a
      timestamp; the version 1 and 6 raw values through the library's
      Gregorian-to-Unix conversion `toEpoch`; the version 7 raw value as it is. */
  function ExtractTimestamp(u: Option<Uuid>, toEpoch: Long -> Long): (r: Long)
    ensures !IsTimeBased(TypeOf(u)) ==> r == 0
    ensures TypeOf(u) == Some(TimeBasedEpoch) ==> r < Bound48
  {
    match TypeOf(u)
    case None => 0
    case Some(t) =>
      match t
      case NameBasedSha1 => 0
      case Unknown => 0
      case Dce => 0
      case RandomBased => 0
      case FreeForm => 0
      case NameBasedMd5 => 0
      case TimeBased => toEpoch(RawV1(u.value))
      case TimeBasedReordered => toEpoch(RawV6(u.value))
      case TimeBasedEpoch => RawV7(u.value)
  }

  /** A version 1 UUID built from a timestamp gives that timestamp back,
      converted by `toEpoch`. */
  lemma {:induction false} ExtractFromV1(ts: Long, lsb: Long, toEpoch: Long -> Long)
    requires ts < Bound60
    ensures ExtractTimestamp(Some(Uuid(V1Msb(ts), lsb)), toEpoch) == toEpoch(ts)
  {
    var u := Uuid(V1Msb(ts), lsb);
    TypeNibbleIsVersion(u);
    RawV1RoundTrip(ts, lsb);
  }

  /** A version 6 UUID built from a timestamp gives that timestamp back,
      converted by `toEpoch`. */
  lemma {:induction false} ExtractFromV6(ts: Long, lsb: Long, toEpoch: Long -> Long)
    requires ts < Bound60
    ensures ExtractTimestamp(Some(Uuid(V6Msb(ts), lsb)), toEpoch) == toEpoch(ts)
  {
    var u := Uuid(V6Msb(ts), lsb);
    TypeNibbleIsVersion(u);
    RawV6RoundTrip(ts, lsb);
  }

  /** A version 7 UUID built from a millisecond count gives that count back. */
  lemma {:induction false} ExtractFromV7(ms: Long, randA: Long, lsb: Long, toEpoch: Long -> Long)
    requires ms < Bound48 && randA < 0x1000
    ensures ExtractTimestamp(Some(Uuid(V7Msb(ms, randA), lsb)), toEpoch) == ms
  {
    var u := Uuid(V7Msb(ms, randA), lsb);
    TypeNibbleIsVersion(u);
    RawV7RoundTrip(ms, randA, lsb);
  }
}
