/** The canonical 36-character text form of a UUID (section 4 of RFC 9562):
    32 hexadecimal digits in five groups of 8, 4, 4, 4 and 12, separated by
    hyphens, each pair of digits one byte of the 16-byte layout. The parser
    accepts upper- and lower-case digits; the formatter writes lower case. */
module StringCodec {
  import opened Wrappers
  import opened JavaInts
  import opened UuidLayout

  /** Why a string is not a UUID: the null-reference exception for a null
      string and the `NumberFormatException`s for a wrong length, a missing
      hyphen and a non-hex character, each with the position it names. */
  datatype FormatError =
    | NullInput
    | WrongLength(length: nat)
    | MissingHyphen(index: nat)
    | NonHex(index: nat, c: char)

  /** The length of the canonical form. */
  const TextLength: nat := 36

  /** The four positions that hold a hyphen. */
  predicate IsHyphenIndex(k: int)
  {
    k == 8 || k == 13 || k == 18 || k == 23
  }

  predicate IsHexDigit(c: char)
  {
    '0' <= c <= '9' || 'a' <= c <= 'f' || 'A' <= c <= 'F'
  }

  /** The value of a hexadecimal digit in either case; 0 for any other
      character. */
  function DigitValue(c: char): (r: Byte)
    ensures r < 16
  {
    match c
    case '0' => 0 case '1' => 1 case '2' => 2 case '3' => 3 case '4' => 4
    case '5' => 5 case '6' => 6 case '7' => 7 case '8' => 8 case '9' => 9
    case 'a' => 10 case 'b' => 11 case 'c' => 12 case 'd' => 13 case 'e' => 14 case 'f' => 15
    case 'A' => 10 case 'B' => 11 case 'C' => 12 case 'D' => 13 case 'E' => 14 case 'F' => 15
    case _ => 0
  }

  /** The parser computes a digit's value from its character code:
      `c - '0'`, `c - 'a' + 10` or `c - 'A' + 10` by range. */
  lemma DigitValueByCode(c: char)
    requires IsHexDigit(c)
    ensures '0' <= c <= '9' ==> DigitValue(c) as int == c as int - '0' as int
    ensures 'a' <= c <= 'f' ==> DigitValue(c) as int == c as int - 'a' as int + 10
    ensures 'A' <= c <= 'F' ==> DigitValue(c) as int == c as int - 'A' as int + 10
  {
  }

  /** The lower-case digit of a value below 16. */
  function HexDigit(v: Byte): (c: char)
    requires v < 16
  {
    "0123456789abcdef"[v as int]
  }

  /** `HexDigit` and `DigitValue` are inverse on digit values. */
  lemma DigitOfHex(v: Byte)
    requires v < 16
    ensures IsHexDigit(HexDigit(v)) && DigitValue(HexDigit(v)) == v
  {
  }

  /** The case folding the parser ignores: `A`-`F` to `a`-`f`, nothing else. */
  function LowerChar(c: char): (r: char)
  {
    if 'A' <= c <= 'F' then (c as int - 'A' as int + 'a' as int) as char else c
  }

  /** `DigitValue` and `HexDigit` are inverse on digits, up to case. */
  lemma HexOfDigit(c: char)
    requires IsHexDigit(c)
    ensures HexDigit(DigitValue(c)) == LowerChar(c)
  {
  }

  /** Case folding keeps hyphens, digits and non-digits apart and keeps digit values. */
  lemma LowerCharKeeps(c: char)
    ensures IsHexDigit(LowerChar(c)) <==> IsHexDigit(c)
    ensures LowerChar(c) == '-' <==> c == '-'
    ensures !IsHexDigit(c) ==> LowerChar(c) == c
    ensures DigitValue(LowerChar(c)) == DigitValue(c)
  {
  }

  /** A string with every upper-case hex letter folded to lower case. */
  function Lower(s: string): (r: string)
    ensures |r| == |s|
    ensures forall k :: 0 <= k < |s| ==> r[k] == LowerChar(s[k])
  {
    seq(|s|, k requires 0 <= k < |s| => LowerChar(s[k]))
  }

  /** The byte of two digit values, high nibble first. */
  function ByteOf(hi: Byte, lo: Byte): (r: Byte)
    requires hi < 16 && lo < 16
  {
    (hi << 4) | lo
  }

  /** `ByteOf` loses nothing: its nibbles are its arguments. */
  lemma ByteOfNibbles(hi: Byte, lo: Byte)
    requires hi < 16 && lo < 16
    ensures ByteOf(hi, lo) >> 4 == hi && ByteOf(hi, lo) & 0xF == lo
  {
  }

  /** Every byte is the `ByteOf` its two nibbles. */
  lemma NibblesOfByte(b: Byte)
    ensures b >> 4 < 16
    ensures ByteOf(b >> 4, b & 0xF) == b
  {
  }

  /** The parser's `curr`, the `int` `(d1 << 4) | d2`, holds the byte of
      its two digit values. */
  lemma CurrIsByte(hi: Byte, lo: Byte)
    requires hi < 16 && lo < 16
    ensures ((hi as Int) << 4) | (lo as Int) == ByteOf(hi, lo) as Int
  {
  }

  /** The position of the `n`-th hex digit (0 to 31) in the canonical form:
      one hyphen is skipped after each of the digits 8, 12, 16 and 20. */
  function DigitIndex(n: nat): (k: nat)
  {
    n + (if n >= 8 then 1 else 0) + (if n >= 12 then 1 else 0)
      + (if n >= 16 then 1 else 0) + (if n >= 20 then 1 else 0)
  }

  /** The digit number at a non-hyphen position. */
  function DigitAt(k: nat): (n: int)
  {
    k - (if k > 8 then 1 else 0) - (if k > 13 then 1 else 0)
      - (if k > 18 then 1 else 0) - (if k > 23 then 1 else 0)
  }

  /** `DigitIndex` places the 32 digits exactly on the 32 non-hyphen
      positions, and `DigitAt` undoes it. */
  lemma DigitPositions(n: nat, k: nat)
    ensures n < 32 ==> DigitIndex(n) < TextLength && !IsHyphenIndex(DigitIndex(n)) && DigitAt(DigitIndex(n)) == n
    ensures k < TextLength && !IsHyphenIndex(k) ==> 0 <= DigitAt(k) < 32 && DigitIndex(DigitAt(k)) == k
  {
  }

  /** Position `k` holds what the canonical form puts there. */
  predicate WellFormedAt(s: string, k: nat)
    requires k < |s|
  {
    if IsHyphenIndex(k) then s[k] == '-' else IsHexDigit(s[k])
  }

  /** `s` is in the canonical form, in either case. */
  predicate IsCanonical(s: string)
  {
    |s| == TextLength && forall k :: 0 <= k < TextLength ==> WellFormedAt(s, k)
  }

  /** The first position at or after `from` that is not well formed, if any. */
  function FirstMalformed(s: string, from: nat): (r: Option<nat>)
    requires from <= |s|
    ensures r.Some? ==> from <= r.value < |s| && !WellFormedAt(s, r.value)
    ensures r.Some? ==> forall k :: from <= k < r.value ==> WellFormedAt(s, k)
    ensures r.None? <==> forall k :: from <= k < |s| ==> WellFormedAt(s, k)
    decreases |s| - from
  {
    if from == |s| then None
    else if !WellFormedAt(s, from) then Some(from)
    else FirstMalformed(s, from + 1)
  }

  /** A malformed position preceded only by well-formed ones is the first. */
  lemma FirstMalformedIs(s: string, p: nat)
    requires p < |s| && !WellFormedAt(s, p)
    requires forall k :: 0 <= k < p ==> WellFormedAt(s, k)
    ensures FirstMalformed(s, 0) == Some(p)
  {
  }

  /** The error the parser reports for the malformed position `k`. */
  function ErrorAt(s: string, k: nat): (e: FormatError)
    requires k < |s|
  {
    if IsHyphenIndex(k) then MissingHyphen(k) else NonHex(k, s[k])
  }

  /** The position an error names, if it names one. */
  function ErrorIndex(e: FormatError): Option<nat>
  {
    match e
    case MissingHyphen(k) => Some(k)
    case NonHex(k, _) => Some(k)
    case _ => None
  }

  /** Byte `j` of the layout as the digits at `DigitIndex(2 * j)` and the
      next position spell it. */
  function DecodedByte(s: string, j: nat): Byte
    requires |s| == TextLength && j < 16
  {
    ByteOf(DigitValue(s[DigitIndex(2 * j)]), DigitValue(s[DigitIndex(2 * j) + 1]))
  }

  /** The 16 bytes the digits of a 36-character string spell. */
  function DecodedBytes(s: string): (r: seq<Byte>)
    requires |s| == TextLength
    ensures |r| == 16
    ensures forall j :: 0 <= j < 16 ==> r[j] == DecodedByte(s, j)
  {
    seq(16, j requires 0 <= j < 16 => DecodedByte(s, j))
  }

  /** The parse of a non-null string as a definition: a wrong length, the
      first malformed position in reading order, or the 16 bytes the digits
      spell. */
  function ParseText(s: string): (r: Result<seq<Byte>, FormatError>)
    ensures r.Success? <==> IsCanonical(s)
    ensures r.Success? ==> r.value == DecodedBytes(s)
    ensures r.Failure? && r.error.WrongLength? <==> |s| != TextLength
    ensures r.Failure? ==> r.error != NullInput
    ensures r.Failure? && ErrorIndex(r.error).Some? ==>
      var p := ErrorIndex(r.error).value;
      p < |s| == TextLength && !WellFormedAt(s, p)
      && (forall k :: 0 <= k < p ==> WellFormedAt(s, k))
      && r.error == ErrorAt(s, p)
  {
    if |s| != TextLength then Failure(WrongLength(|s|))
    else match FirstMalformed(s, 0)
      case Some(p) => Failure(ErrorAt(s, p))
      case None => Success(DecodedBytes(s))
  }

  /** `uuid(String)` as a definition: a null string is refused, any other is
      parsed to the UUID whose layout its digits spell, or to the error of
      `ParseText`. */
  function Parse(id: Option<string>): (r: Result<Uuid, FormatError>)
    ensures r == Failure(NullInput) <==> id.None?
    ensures r.Success? <==> id.Some? && IsCanonical(id.value)
    ensures r.Failure? && id.Some? ==> r.error == ParseText(id.value).error
  {
    match id
    case None => Failure(NullInput)
    case Some(s) =>
      match ParseText(s)
      case Failure(e) => Failure(e)
      case Success(bytes) => Success(UuidOfBytes(bytes))
  }

  /** The parsed UUID's 16-byte layout is what the digits spell. */
  lemma ParseSpellsLayout(s: string)
    requires IsCanonical(s)
    ensures Parse(Some(s)).Success?
    ensures UuidBytes(Parse(Some(s)).value) == DecodedBytes(s)
  {
    UuidOfBytesRoundTrip(DecodedBytes(s));
  }

  /** The position at which the parser's loop starts reading byte `j`. */
  function ByteStart(j: nat): (k: nat)
  {
    if j == 0 then 0 else DigitIndex(2 * j - 1) + 1
  }

  /** One iteration of the loop: byte `j` starts at `ByteStart(j)`, after a
      hyphen exactly when that position is a hyphen position, its two digits
      are adjacent, and the next byte starts right after them. */
  lemma ByteStep(j: nat)
    requires j < 16
    ensures var q := ByteStart(j) + (if IsHyphenIndex(ByteStart(j)) then 1 else 0);
      q == DigitIndex(2 * j) && q + 1 == DigitIndex(2 * j + 1) && q + 2 == ByteStart(j + 1)
      && !IsHyphenIndex(q) && !IsHyphenIndex(q + 1) && q + 1 < TextLength
  {
  }

  /** Bytes shifted one by one into a `long` that starts at zero, as the
      loop accumulates them: each step is `acc = (acc << 8) | byte`. */
  function Pack(p: seq<Byte>): Long
  {
    if |p| == 0 then 0 else (Pack(p[..|p| - 1]) << 8) | (p[|p| - 1] as Long)
  }

  /** Packing a prefix one byte longer shifts in that byte. */
  lemma PackSnoc(p: seq<Byte>, k: nat)
    requires k < |p|
    ensures Pack(p[..k + 1]) == (Pack(p[..k]) << 8) | (p[k] as Long)
  {
    assert p[..k + 1][..k] == p[..k];
  }

  /** Eight shift-in steps from zero build the big-endian `long` of the
      eight bytes. */
  lemma ShiftChain(b0: Byte, b1: Byte, b2: Byte, b3: Byte, b4: Byte, b5: Byte, b6: Byte, b7: Byte)
    ensures (((((((((((((((b0 as Long) << 8) | (b1 as Long)) << 8) | (b2 as Long)) << 8) | (b3 as Long)) << 8) | (b4 as Long)) << 8) | (b5 as Long)) << 8) | (b6 as Long)) << 8) | (b7 as Long))
      == LongOfBytes(b0, b1, b2, b3, b4, b5, b6, b7)
  {
  }

  /** The first byte shifted into a zero accumulator is that byte. */
  lemma PackOne(h: seq<Byte>)
    requires |h| > 0
    ensures Pack(h[..1]) == h[0] as Long
  {
    assert h[..1][..0] == [];
  }

  /** Four bytes packed are four shift-in steps. */
  lemma {:induction false} PackFour(h: seq<Byte>)
    requires |h| >= 4
    ensures Pack(h[..4]) == (((((((h[0] as Long) << 8) | (h[1] as Long)) << 8) | (h[2] as Long)) << 8) | (h[3] as Long))
  {
    PackOne(h);
    PackSnoc(h, 1); PackSnoc(h, 2); PackSnoc(h, 3);
  }

  /** Eight bytes packed are the first four packed, then four more shift-in
      steps. */
  lemma {:induction false} PackLastFour(h: seq<Byte>)
    requires |h| == 8
    ensures Pack(h) == ((((((((Pack(h[..4]) << 8) | (h[4] as Long)) << 8) | (h[5] as Long)) << 8) | (h[6] as Long)) << 8) | (h[7] as Long))
  {
    PackSnoc(h, 4); PackSnoc(h, 5); PackSnoc(h, 6);
  }

  /** Eight packed bytes are the `long` they spell big-endian. */
  lemma {:induction false} PackEight(h: seq<Byte>)
    requires |h| == 8
    ensures Pack(h) == BigEndian(h)
  {
    PackFour(h);
    PackLastFour(h);
    ShiftChain(h[0], h[1], h[2], h[3], h[4], h[5], h[6], h[7]);
  }

  /** Sixteen bytes packed in two halves are the UUID with that layout. */
  lemma {:induction false} PackHalves(d: seq<Byte>)
    requires |d| == 16
    ensures Uuid(Pack(d[..8]), Pack(d[8..])) == UuidOfBytes(d)
  {
    PackEight(d[..8]);
    PackEight(d[8..]);
  }

  /** Widening a non-negative `int` below 256 to `long` adds only zeros. */
  lemma WidenByte(d: Byte)
    ensures IntToLong(d as Int) == d as Long
  {
  }

  /** One step of the loop's accumulation, `acc = (acc << 8) | curr`, with
      the `int` `curr` sign-extended to `long` as Java widens it. */
  method ShiftIn(acc: Long, curr: Int, ghost d: Byte, ghost p: seq<Byte>) returns (r: Long)
    requires curr == d as Int
    requires acc == Pack(p)
    ensures r == Pack(p + [d])
  {
    WidenByte(d);
    assert (p + [d])[..|p|] == p;
    r := (acc << 8) | IntToLong(curr);
  }

  /** One character read as a digit: its value by the three ranges `0`-`9`,
      `a`-`f` and `A`-`F`, or the error for a non-hex character at `i`. */
  method ReadDigit(s: string, i: nat) returns (e: Option<FormatError>, v: Byte)
    requires i < |s| == TextLength && !IsHyphenIndex(i)
    requires forall k :: 0 <= k < i ==> WellFormedAt(s, k)
    ensures e.Some? ==> ParseText(s) == Failure(e.value)
    ensures e.None? ==> WellFormedAt(s, i) && v == DigitValue(s[i])
  {
    var c := s[i];
    if !IsHexDigit(c) {
      FirstMalformedIs(s, i);
      return Some(NonHex(i, c)), 0;
    }
    return None, DigitValue(c);
  }

  /** The `switch` at the head of the loop body: at positions 8, 13, 18 and
      23 the character must be a hyphen, which is then skipped. */
  method SkipHyphen(s: string, start: nat, ghost j: nat) returns (e: Option<FormatError>, i: nat)
    requires |s| == TextLength && j < 16 && start == ByteStart(j)
    requires forall k :: 0 <= k < start ==> WellFormedAt(s, k)
    ensures e.Some? ==> ParseText(s) == Failure(e.value)
    ensures e.None? ==> i == DigitIndex(2 * j) && forall k :: 0 <= k < i ==> WellFormedAt(s, k)
  {
    ByteStep(j);
    i := start;
    if IsHyphenIndex(i) {
      if s[i] != '-' {
        FirstMalformedIs(s, i);
        return Some(MissingHyphen(i)), i;
      }
      assert WellFormedAt(s, i);
      i := i + 1;
    }
    return None, i;
  }

  /** The body of the parser's loop up to the accumulation: past the hyphen
      that precedes bytes 4, 6, 8 and 10, read the byte's two digits as
      `curr = (d1 << 4) | d2`. A missing hyphen or a non-digit ends the parse
      with the error the definition names. */
  method ReadByte(s: string, start: nat, ghost j: nat) returns (e: Option<FormatError>, curr: Int, next: nat)
    requires |s| == TextLength && j < 16 && start == ByteStart(j)
    requires forall k :: 0 <= k < start ==> WellFormedAt(s, k)
    ensures e.Some? ==> ParseText(s) == Failure(e.value)
    ensures e.None? ==> curr == ((DigitValue(s[DigitIndex(2 * j)]) as Int) << 4) | (DigitValue(s[DigitIndex(2 * j) + 1]) as Int)
    ensures e.None? ==> next == ByteStart(j + 1)
    ensures e.None? ==> forall k :: 0 <= k < next ==> WellFormedAt(s, k)
  {
    ByteStep(j);
    var i;
    e, i := SkipHyphen(s, start, j);
    if e.Some? {
      return e, 0, 0;
    }
    var d1;
    e, d1 := ReadDigit(s, i);
    if e.Some? {
      return e, 0, 0;
    }
    curr := d1 as Int;
    curr := curr << 4;
    i := i + 1;
    var d2;
    e, d2 := ReadDigit(s, i);
    if e.Some? {
      return e, 0, 0;
    }
    curr := curr | (d2 as Int);
    return None, curr, i + 1;
  }

  /** The loop's accumulators after `j` bytes of the layout `d`: bytes 0-7
      go into `hi`, bytes 8-15 into `lo`. */
  ghost predicate Accumulated(hi: Long, lo: Long, d: seq<Byte>, j: nat)
    requires |d| == 16 && j <= 16
  {
    if j <= 8 then lo == 0 && hi == Pack(d[..j])
    else hi == Pack(d[..8]) && lo == Pack(d[8..j])
  }

  /** The end of the loop body: byte `j` is shifted into `hi` while `j < 8`
      and into `lo` after. */
  method StoreByte(hi: Long, lo: Long, curr: Int, ghost d: seq<Byte>, j: nat) returns (hi': Long, lo': Long)
    requires |d| == 16 && j < 16 && Accumulated(hi, lo, d, j)
    requires curr == d[j] as Int
    ensures Accumulated(hi', lo', d, j + 1)
  {
    assert d[..j + 1] == d[..j] + [d[j]];
    if j < 8 {
      hi' := ShiftIn(hi, curr, d[j], d[..j]);
      lo' := lo;
    } else {
      assert d[8..j + 1] == d[8..j] + [d[j]];
      assert j == 8 ==> d[8..j] == [];
      hi' := hi;
      lo' := ShiftIn(lo, curr, d[j], d[8..j]);
    }
  }

  /** `uuid(String)`: after the null and length checks, one iteration per
      byte, shifting bytes 0-7 into `hi` and bytes 8-15 into `lo`. */
  method ParseUuid(id: Option<string>) returns (r: Result<Uuid, FormatError>)
    ensures r == Parse(id)
  {
    if id.None? {
      return Failure(NullInput);
    }
    var s := id.value;
    if |s| != TextLength {
      return Failure(WrongLength(|s|));
    }
    ghost var d := DecodedBytes(s);
    var lo: Long, hi: Long := 0, 0;
    var i, j := 0, 0;
    while i < TextLength
      invariant 0 <= j <= 16 && i == ByteStart(j)
      invariant forall k :: 0 <= k < i ==> WellFormedAt(s, k)
      invariant Accumulated(hi, lo, d, j)
      decreases TextLength - i
    {
      var e, curr, next := ReadByte(s, i, j);
      if e.Some? {
        return Failure(e.value);
      }
      CurrIsByte(DigitValue(s[DigitIndex(2 * j)]), DigitValue(s[DigitIndex(2 * j) + 1]));
      hi, lo := StoreByte(hi, lo, curr, d, j);
      i := next;
      j := j + 1;
    }
    assert d[8..j] == d[8..];
    PackHalves(d);
    return Success(Uuid(hi, lo));
  }

  /** Digit `n` (0 to 31) of a byte layout: the high nibble of byte `n / 2`
      for even `n`, the low nibble for odd `n`. */
  function Nibble(bytes: seq<Byte>, n: nat): (v: Byte)
    requires n < 2 * |bytes|
    ensures v < 16
  {
    if n % 2 == 0 then bytes[n / 2] >> 4 else bytes[n / 2] & 0xF
  }

  /** The canonical form of a 16-byte layout, with lower-case digits. */
  function FormatBytes(b: seq<Byte>): (r: string)
    requires |b| == 16
    ensures |r| == TextLength
  {
    seq(TextLength, k requires 0 <= k < TextLength =>
      if IsHyphenIndex(k) then '-'
      else DigitPositions(0, k); HexDigit(Nibble(b, DigitAt(k))))
  }

  /** The canonical form of a UUID with lower-case digits, as
      `java.util.UUID` writes it. */
  function Format(u: Uuid): (r: string)
    ensures IsCanonical(r)
  {
    FormatIsCanonical(UuidBytes(u));
    FormatBytes(UuidBytes(u))
  }

  /** Formatting yields the canonical form. */
  lemma {:induction false} FormatIsCanonical(b: seq<Byte>)
    requires |b| == 16
    ensures IsCanonical(FormatBytes(b))
  {
    var f := FormatBytes(b);
    forall k | 0 <= k < TextLength
      ensures WellFormedAt(f, k)
    {
      if !IsHyphenIndex(k) {
        DigitPositions(0, k);
        DigitOfHex(Nibble(b, DigitAt(k)));
      }
    }
  }

  /** A byte's two lower-case hex digits read back as that byte. */
  lemma HexPair(v: Byte)
    ensures v >> 4 < 16
    ensures ByteOf(DigitValue(HexDigit(v >> 4)), DigitValue(HexDigit(v & 0xF))) == v
  {
    DigitOfHex(v >> 4);
    DigitOfHex(v & 0xF);
    NibblesOfByte(v);
  }

  /** The formatter writes the high and then the low nibble of byte `j` at
      that byte's two digit positions. */
  lemma {:induction false} FormattedChars(b: seq<Byte>, j: nat)
    requires |b| == 16 && j < 16
    ensures DigitIndex(2 * j) + 1 < TextLength
    ensures FormatBytes(b)[DigitIndex(2 * j)] == HexDigit(b[j] >> 4)
    ensures FormatBytes(b)[DigitIndex(2 * j) + 1] == HexDigit(b[j] & 0xF)
  {
    ByteStep(j);
    DigitPositions(2 * j, 0);
    DigitPositions(2 * j + 1, 0);
    assert Nibble(b, 2 * j) == b[j] >> 4;
    assert Nibble(b, 2 * j + 1) == b[j] & 0xF;
  }

  /** The two digits the formatter writes for byte `j` spell that byte. */
  lemma {:induction false} FormattedByte(b: seq<Byte>, j: nat)
    requires |b| == 16 && j < 16
    ensures DecodedByte(FormatBytes(b), j) == b[j]
  {
    FormattedChars(b, j);
    HexPair(b[j]);
  }

  /** Bytes to text to bytes: the digits of the formatted layout spell it. */
  lemma {:induction false} ParseTextFormat(b: seq<Byte>)
    requires |b| == 16
    ensures ParseText(FormatBytes(b)) == Success(b)
  {
    var f := FormatBytes(b);
    FormatIsCanonical(b);
    forall j | 0 <= j < 16
      ensures DecodedBytes(f)[j] == b[j]
    {
      FormattedByte(b, j);
    }
    assert DecodedBytes(f) == b;
  }

  /** Value to text to value: the parser reads back what the formatter writes. */
  lemma {:induction false} ParseFormat(u: Uuid)
    ensures Parse(Some(Format(u))) == Success(u)
  {
    ParseTextFormat(UuidBytes(u));
    UuidBytesRoundTrip(u);
  }

  /** At a digit position the formatter writes the nibble that position
      stands for. */
  lemma FormatAt(b: seq<Byte>, k: nat)
    requires |b| == 16 && k < TextLength && !IsHyphenIndex(k)
    ensures DigitAt(k) < 32
    ensures FormatBytes(b)[k] == HexDigit(Nibble(b, DigitAt(k)))
  {
    DigitPositions(0, k);
  }

  /** The two nibbles of a byte built by `ByteOf` are the two it was built from. */
  lemma NibblesAt(d: seq<Byte>, j: nat, hi: Byte, lo: Byte)
    requires j < |d| && hi < 16 && lo < 16 && d[j] == ByteOf(hi, lo)
    ensures Nibble(d, 2 * j) == hi && Nibble(d, 2 * j + 1) == lo
  {
    ByteOfNibbles(hi, lo);
  }

  /** Nibble `n` of the decoded bytes is the value of digit `n` of the text. */
  lemma {:induction false} NibbleOfDecoded(s: string, n: nat)
    requires |s| == TextLength && n < 32
    ensures DigitIndex(n) < TextLength
    ensures Nibble(DecodedBytes(s), n) == DigitValue(s[DigitIndex(n)])
  {
    var j := n / 2;
    assert n == 2 * j || n == 2 * j + 1;
    ByteStep(j);
    NibblesAt(DecodedBytes(s), j, DigitValue(s[DigitIndex(2 * j)]), DigitValue(s[DigitIndex(2 * j) + 1]));
  }

  /** The formatter writes back the digit at each digit position of a
      canonical string, in lower case. */
  lemma {:induction false} FormattedDigit(s: string, k: nat)
    requires IsCanonical(s) && k < TextLength && !IsHyphenIndex(k)
    ensures FormatBytes(DecodedBytes(s))[k] == LowerChar(s[k])
  {
    assert WellFormedAt(s, k);
    FormatAt(DecodedBytes(s), k);
    DigitPositions(0, k);
    NibbleOfDecoded(s, DigitAt(k));
    HexOfDigit(s[k]);
  }

  /** Text to bytes to text: formatting the bytes a canonical string spells
      gives back the string, with its hex letters in lower case. */
  lemma {:induction false} FormatParseText(s: string)
    requires IsCanonical(s)
    ensures FormatBytes(DecodedBytes(s)) == Lower(s)
  {
    forall k | 0 <= k < TextLength
      ensures FormatBytes(DecodedBytes(s))[k] == Lower(s)[k]
    {
      assert WellFormedAt(s, k);
      if !IsHyphenIndex(k) {
        FormattedDigit(s, k);
      }
    }
  }

  /** Text to value to text: formatting what the parser read gives back the
      text, with its hex letters in lower case. */
  lemma {:induction false} FormatParse(s: string)
    requires IsCanonical(s)
    ensures Parse(Some(s)).Success?
    ensures Format(Parse(Some(s)).value) == Lower(s)
  {
    ParseSpellsLayout(s);
    FormatParseText(s);
  }

  /** Positions are well formed in a string exactly where they are in its
      lower-case fold. */
  lemma {:induction false} WellFormedIgnoresCase(s: string, k: nat)
    requires k < |s|
    ensures WellFormedAt(Lower(s), k) <==> WellFormedAt(s, k)
  {
    LowerCharKeeps(s[k]);
  }

  /** The parser does not distinguish upper- from lower-case digits: a string
      and its lower-case fold give the same UUID or the same error. */
  lemma {:induction false} ParseIgnoresCase(s: string)
    ensures Parse(Some(Lower(s))) == Parse(Some(s))
  {
    var t := Lower(s);
    if |s| == TextLength {
      forall k | 0 <= k < TextLength
        ensures WellFormedAt(t, k) <==> WellFormedAt(s, k)
      {
        WellFormedIgnoresCase(s, k);
      }
      var ps, pt := FirstMalformed(s, 0), FirstMalformed(t, 0);
      if ps.Some? {
        FirstMalformedIs(t, ps.value);
        LowerCharKeeps(s[ps.value]);
      } else {
        assert pt.None?;
        forall j | 0 <= j < 16
          ensures DecodedBytes(t)[j] == DecodedBytes(s)[j]
        {
          ByteStep(j);
          LowerCharKeeps(s[DigitIndex(2 * j)]);
          LowerCharKeeps(s[DigitIndex(2 * j) + 1]);
        }
        assert DecodedBytes(t) == DecodedBytes(s);
      }
    }
  }
}
