/** Telling a UUID's type from its version field (section 4.2 of RFC 9562),
    with the Nil UUID of section 5.9 as the one value of type `Unknown`. */
module TypeClassifier {
  import opened Wrappers
  import opened JavaInts
  import opened UuidLayout
  import opened VersionTagger

  /** The nibble `typeOf` switches on: `(((int) l) >> 12) & 0xF`, the
      arithmetic shift written as the logical one (`ArithmeticShiftNibble`). */
  function TypeNibble(msb: Long): (n: Int)
    ensures n < 16
  {
    (LongToInt(msb) >> 12) & 0xF
  }

  /** The nibble is the version field: bits 12-15 of `msb`. */
  lemma TypeNibbleIsVersion(u: Uuid)
    ensures TypeNibble(u.msb) as Long == Version(u)
  {
  }

  /** `typeOf`: `None` for a null UUID; for nibble 0 `Unknown` if the UUID is
      Nil and `None` otherwise; the type with that raw code for nibbles 1-8;
      `None` for nibbles 9-15. */
  function TypeOf(u: Option<Uuid>): (r: Option<UuidType>)
    ensures u.None? ==> r.None?
    ensures r == Some(Unknown) <==> u == Some(Nil)
    ensures r.Some? ==> r.value.Raw() == TypeNibble(u.value.msb)
    ensures u.Some? && 1 <= TypeNibble(u.value.msb) <= 8 ==> r.Some?
  {
    match u
    case None => None
    case Some(v) =>
      var nibble := TypeNibble(v.msb);
      if nibble == 0 then
        if v.msb == 0 && v.lsb == v.msb then Some(Unknown) else None
      else if nibble == 1 then Some(TimeBased)
      else if nibble == 2 then Some(Dce)
      else if nibble == 3 then Some(NameBasedMd5)
      else if nibble == 4 then Some(RandomBased)
      else if nibble == 5 then Some(NameBasedSha1)
      else if nibble == 6 then Some(TimeBasedReordered)
      else if nibble == 7 then Some(TimeBasedEpoch)
      else if nibble == 8 then Some(FreeForm)
      else None
  }

  /** A version above 8 is not recognised. */
  lemma {:induction false} TypeOfUnrecognised(u: Uuid)
    requires Version(u) > 8
    ensures TypeOf(Some(u)).None?
  {
    TypeNibbleIsVersion(u);
  }

  /** A UUID built by `constructUUID` is classified as the type it was built
      with, except `Unknown`: the variant bits make it non-Nil. */
  lemma {:induction false} TypeOfConstructed(t: UuidType, l1: Long, l2: Long)
    ensures TypeOf(Some(ConstructFromLongs(t, l1, l2))) == if t == Unknown then None else Some(t)
  {
    var u := ConstructFromLongs(t, l1, l2);
    ConstructedFields(t, l1, l2);
    TypeNibbleIsVersion(u);
    assert u != Nil;
    if t != Unknown {
      var r := TypeOf(Some(u));
      assert r.Some?;
      RawInjective(r.value, t);
    }
  }
}
