/** The packed datetime: milliseconds shifted by 8, a bit that marks the epoch, a 7-bit zone in quarter hours. */
module PackedDatetime {
  import opened Int64
  import opened Bits64

  /** An instant in nanoseconds since the Unix epoch, seen in a zone `offset` seconds east of UTC. */
  datatype Time = Time(nanos: int, offset: int)

  const NANOS_PER_MILLI := 1_000_000
  /** Midnight of January 1, year 1, UTC. */
  const ZERO_MILLIS := -62_135_596_800_000
  const ZERO_TIME := Time(ZERO_MILLIS * NANOS_PER_MILLI, 0)

  const EPOCH_BIT := 0x80
  const TZ_MASK := 0x7F
  const MS_PER_DAY := 24 * 60 * 60 * 1000
  const QUARTER_MILLIS := 15 * 60 * 1000

  predicate IsZero(t: Time) {
    t.nanos == ZERO_TIME.nanos
  }

  function UnixMilli(t: Time): int {
    Wrap(t.nanos / NANOS_PER_MILLI)
  }

  /** The zone in units of 15 minutes, truncated toward zero. */
  function ZoneValue(t: Time): int {
    Quotient(Quotient(t.offset, 60), 15)
  }

  /** Go's `%`, whose sign follows the dividend. */
  function Remainder(a: int, b: int): int
    requires b != 0
  {
    a - b * Quotient(a, b)
  }

  function PackDatetime(t: Time): int {
    if IsZero(t) then 0 else Pack(UnixMilli(t), ZoneValue(t))
  }

  function Pack(milli: int, tz: int): int {
    var epoch := if milli == 0 && tz == 0 then EPOCH_BIT else 0;
    var shifted := if !(milli == 0 && tz == 0) && TimeOfDay(milli, tz) == 0 then Wrap(milli + 1) else milli;
    Or(Or(ShiftLeft(shifted, 8), epoch), And(tz, TZ_MASK))
  }

  /** Milliseconds since local midnight, computed with Go's `%`. */
  function TimeOfDay(milli: int, tz: int): int {
    var local := Wrap(milli + tz * QUARTER_MILLIS);
    Remainder(Remainder(local, MS_PER_DAY) + MS_PER_DAY, MS_PER_DAY)
  }

  function UnpackDatetime(packed: int): Time {
    if packed == 0 then ZERO_TIME
    else
      var milli := ShiftRight(packed, 8);
      var tz := SignExtend(And(packed, TZ_MASK));
      Time(milli * NANOS_PER_MILLI, tz * 15 * 60)
  }

  /** A 7-bit field as a signed number. */
  function SignExtend(low: int): int {
    if low > 63 then low - 128 else low
  }

  // ----- arithmetic reading of the bit operations -----

  lemma Powers()
    ensures Pow2(7) == 128 && Pow2(8) == 256
  {
    assert Pow2(2) == 4;
    assert Pow2(4) == 16;
    assert Pow2(6) == 64;
  }

  /** The pattern of a multiple of a power of two is one as well. */
  lemma PatternOfMultiple(x: int, q: int, m: int) returns (h: nat)
    requires Fits(x) && x == q * m && (m == 256 || m == 128)
    ensures Pattern(x) == h * m && Pattern(x) == if x >= 0 then x else x + MODULUS
  {
    if x >= 0 {
      h := q;
      ModUnique(x, MODULUS, 0, x);
    } else {
      h := q + MODULUS / m;
      ModUnique(x, MODULUS, -1, x + MODULUS);
    }
  }

  lemma WrapPattern(x: int, low: nat)
    requires Fits(x) && Fits(x + low)
    ensures Wrap((if x >= 0 then x else x + MODULUS) + low) == x + low
  {
    if x < 0 { ModUnique(x + MODULUS + low - MIN, MODULUS, 1, x + low - MIN); }
  }

  /** Or of a multiple of 256 with a byte, and of a multiple of 128 with 7 bits, is addition. */
  lemma OrByte(x: int, q: int, low: nat)
    requires Fits(x) && x == q * 256 && low < 256 && Fits(x + low)
    ensures Or(x, low) == x + low
  {
    Powers();
    var h := PatternOfMultiple(x, q, 256);
    OrDisjoint(h, low, 8);
    ModUnique(low, MODULUS, 0, low);
    WrapPattern(x, low);
  }

  lemma OrSeven(x: int, q: int, low: nat)
    requires Fits(x) && x == q * 128 && low < 128 && Fits(x + low)
    ensures Or(x, low) == x + low
  {
    Powers();
    var h := PatternOfMultiple(x, q, 128);
    OrDisjoint(h, low, 7);
    ModUnique(low, MODULUS, 0, low);
    WrapPattern(x, low);
  }

  lemma AndSeven(x: int)
    requires Fits(x)
    ensures And(x, TZ_MASK) == x % 128
  {
    Powers();
    var p := Pattern(x);
    if x >= 0 {
      assert p == x;
    } else {
      assert p == x + MODULUS;
      ModUnique(p, 128, x / 128 + MODULUS / 128, x % 128);
    }
    AndMask(p, 7);
    assert Pattern(TZ_MASK) == Pow2(7) - 1;
  }

  /** The doubled remainder is the mathematical one. */
  lemma FlooredRemainder(a: int)
    ensures Remainder(Remainder(a, MS_PER_DAY) + MS_PER_DAY, MS_PER_DAY) == a % MS_PER_DAY
  {
    if a >= 0 {
      var q, m := a / MS_PER_DAY, a % MS_PER_DAY;
      assert Remainder(a, MS_PER_DAY) == m;
      ModUnique(m + MS_PER_DAY, MS_PER_DAY, 1, m);
    } else {
      var q, m := (-a) / MS_PER_DAY, (-a) % MS_PER_DAY;
      assert Remainder(a, MS_PER_DAY) == -m;
      if m == 0 {
        ModUnique(a, MS_PER_DAY, -q, 0);
        ModUnique(MS_PER_DAY, MS_PER_DAY, 1, 0);
      } else {
        ModUnique(a, MS_PER_DAY, -q - 1, MS_PER_DAY - m);
        ModUnique(MS_PER_DAY - m, MS_PER_DAY, 0, MS_PER_DAY - m);
      }
    }
  }

  // ----- the round trip -----

  predicate FieldsFit(milli: int, tz: int) {
    -0x80_0000_0000_0000 < milli < 0x80_0000_0000_0000 && -64 <= tz <= 63
  }

  /** Times whose milliseconds and zone fit their fields. */
  predicate Packable(t: Time) {
    FieldsFit(t.nanos / NANOS_PER_MILLI, ZoneValue(t))
  }

  /** Midnight in the packed zone, other than the epoch instant in UTC: the clients' unparsable value. */
  predicate IsMidnight(milli: int, tz: int) {
    (milli + tz * QUARTER_MILLIS) % MS_PER_DAY == 0 && !(milli == 0 && tz == 0)
  }

  predicate IsLocalMidnight(t: Time) {
    IsMidnight(t.nanos / NANOS_PER_MILLI, ZoneValue(t))
  }

  function Shifted(milli: int, tz: int): int {
    milli + if IsMidnight(milli, tz) then 1 else 0
  }

  function EpochField(milli: int, tz: int): int {
    if milli == 0 && tz == 0 then EPOCH_BIT else 0
  }

  function PackedMillis(t: Time): int {
    Shifted(t.nanos / NANOS_PER_MILLI, ZoneValue(t))
  }

  lemma ShiftByEight(milli: int)
    requires -0x80_0000_0000_0000 <= milli < 0x80_0000_0000_0000
    ensures ShiftLeft(milli, 8) == milli * 256 && Fits(milli * 256 + 255)
  {
    Powers();
  }

  lemma EpochBeside(high: int, milli: int, epoch: int)
    requires high == milli * 256 && Fits(high) && Fits(high + 255) && (epoch == 0 || epoch == EPOCH_BIT)
    ensures Or(high, epoch) == high + epoch
  {
    OrByte(high, milli, epoch);
  }

  /** The three fields side by side. */
  lemma FieldsAdd(milli: int, epoch: int, tz: int)
    requires -0x80_0000_0000_0000 <= milli < 0x80_0000_0000_0000 && -64 <= tz <= 63 && (epoch == 0 || epoch == EPOCH_BIT)
    ensures Fits(milli * 256 + epoch + tz % 128)
    ensures Or(Or(ShiftLeft(milli, 8), epoch), And(tz, TZ_MASK)) == milli * 256 + epoch + tz % 128
  {
    ShiftByEight(milli);
    AndSeven(tz);
    ZoneBeside(milli * 256, milli, epoch, tz % 128);
  }

  lemma ZoneBesideFields(fields: int, q: int, low: nat)
    requires fields == q * 128 && Fits(fields) && Fits(fields + 127) && low < 128
    ensures Or(fields, low) == fields + low
  {
    OrSeven(fields, q, low);
  }

  lemma ZoneBeside(high: int, milli: int, epoch: int, low: nat)
    requires high == milli * 256 && Fits(high) && Fits(high + 255) && (epoch == 0 || epoch == EPOCH_BIT) && low < 128
    ensures Or(Or(high, epoch), low) == high + epoch + low
  {
    EpochBeside(high, milli, epoch);
    ZoneBesideFields(high + epoch, 2 * milli + (if epoch == 0 then 0 else 1), low);
  }

  lemma TimeOfDayExact(milli: int, tz: int)
    requires FieldsFit(milli, tz)
    ensures TimeOfDay(milli, tz) == (milli + tz * QUARTER_MILLIS) % MS_PER_DAY
  {
    FlooredRemainder(milli + tz * QUARTER_MILLIS);
  }

  lemma ShiftedFits(milli: int, tz: int)
    requires FieldsFit(milli, tz)
    ensures FieldsFit(Shifted(milli, tz), tz)
  {
    MidnightIsEven(milli, tz);
  }

  /** The fields of a packed time. */
  lemma PackedFields(milli: int, tz: int)
    requires FieldsFit(milli, tz)
    ensures Fits(Shifted(milli, tz) * 256 + EpochField(milli, tz) + tz % 128)
    ensures Pack(milli, tz) == Shifted(milli, tz) * 256 + EpochField(milli, tz) + tz % 128
  {
    TimeOfDayExact(milli, tz);
    ShiftedFits(milli, tz);
    FieldsAdd(Shifted(milli, tz), EpochField(milli, tz), tz);
  }

  lemma MidnightIsEven(milli: int, tz: int)
    ensures (milli + tz * QUARTER_MILLIS) % MS_PER_DAY == 0 ==> milli % 2 == 0
  {
    var q := (milli + tz * QUARTER_MILLIS) / MS_PER_DAY;
    if (milli + tz * QUARTER_MILLIS) % MS_PER_DAY == 0 {
      assert milli + tz * QUARTER_MILLIS == MS_PER_DAY * q;
      assert milli == 2 * (43_200_000 * q - 450_000 * tz);
    }
  }

  lemma SignExtendBack(tz: int)
    requires -64 <= tz <= 63
    ensures SignExtend(tz % 128) == tz
  {
  }

  /** The two fields of a packed value. */
  lemma SplitFields(packed: int, milli: int, epoch: int, low: int)
    requires packed == milli * 256 + epoch + low && 0 <= low < 128 && (epoch == 0 || epoch == EPOCH_BIT)
    ensures packed / 256 == milli && packed % 128 == low
  {
    ModUnique(packed, 256, milli, epoch + low);
    ModUnique(packed, 128, 2 * milli + (if epoch == 0 then 0 else 1), low);
  }

  /** Unpacking reads the fields back. */
  lemma UnpackFields(packed: int, milli: int, epoch: int, tz: int)
    requires -64 <= tz <= 63 && (epoch == 0 || epoch == EPOCH_BIT)
    requires packed == milli * 256 + epoch + tz % 128 && Fits(packed) && packed != 0
    ensures UnpackDatetime(packed) == Time(milli * NANOS_PER_MILLI, tz * 900)
  {
    Powers();
    SplitFields(packed, milli, epoch, tz % 128);
    AndSeven(packed);
    SignExtendBack(tz);
  }

  lemma FieldsNonZero(milli: int, epoch: int, tz: int)
    requires -64 <= tz <= 63 && (epoch == 0 || epoch == EPOCH_BIT)
    ensures milli * 256 + epoch + tz % 128 == 0 <==> milli == 0 && epoch == 0 && tz == 0
  {
  }

  lemma PackIsNotZero(milli: int, tz: int)
    requires FieldsFit(milli, tz)
    ensures Pack(milli, tz) != 0
  {
    PackedFields(milli, tz);
    FieldsNotAllZero(milli, tz);
    FieldsNonZero(Shifted(milli, tz), EpochField(milli, tz), tz);
  }

  lemma FieldsNotAllZero(milli: int, tz: int)
    ensures !(Shifted(milli, tz) == 0 && EpochField(milli, tz) == 0 && tz == 0)
  {
    MidnightIsEven(milli, tz);
  }

  lemma UnpackPack(milli: int, tz: int)
    requires FieldsFit(milli, tz)
    ensures UnpackDatetime(Pack(milli, tz)) == Time(Shifted(milli, tz) * NANOS_PER_MILLI, tz * 900)
  {
    PackIsNotZero(milli, tz);
    PackedFields(milli, tz);
    UnpackFields(Pack(milli, tz), Shifted(milli, tz), EpochField(milli, tz), tz);
  }

  /** Only the zero time packs to 0. */
  lemma OnlyZeroPacksToZero(t: Time)
    requires Packable(t)
    ensures PackDatetime(t) == 0 <==> IsZero(t)
  {
    PackIsNotZero(t.nanos / NANOS_PER_MILLI, ZoneValue(t));
  }

  /**
   Unpacking the packed time restores its zone (in whole quarter hours) and its instant (in whole
   milliseconds), shifted by exactly 1 ms at local midnight other than the UTC epoch; the zero time
   comes back as the zero time.
   */
  lemma RoundTrip(t: Time)
    requires Packable(t)
    ensures UnpackDatetime(PackDatetime(t)) ==
            if IsZero(t) then ZERO_TIME else Time(PackedMillis(t) * NANOS_PER_MILLI, ZoneValue(t) * 900)
  {
    UnpackPack(t.nanos / NANOS_PER_MILLI, ZoneValue(t));
  }

  /** A whole-millisecond time in a quarter-hour zone comes back unchanged, or 1 ms later at local midnight. */
  lemma RoundTripExact(milli: int, quarters: int)
    requires FieldsFit(milli, quarters) && milli != ZERO_MILLIS
    ensures var t := Time(milli * NANOS_PER_MILLI, quarters * 900);
      UnpackDatetime(PackDatetime(t)) == if IsLocalMidnight(t) then t.(nanos := t.nanos + NANOS_PER_MILLI) else t
  {
    var t := Time(milli * NANOS_PER_MILLI, quarters * 900);
    WholeFields(milli, quarters);
    RoundTrip(t);
  }

  /**
   The shift by the local clock: a time whose local clock shows day, hour, minute, second and millisecond
   comes back 1 ms later exactly when the clock shows 0:00:00.000 and the time is not the epoch in UTC.
   */
  lemma ShiftByLocalClock(milli: int, quarters: int, day: int, hour: nat, minute: nat, second: nat, ms: nat)
    requires FieldsFit(milli, quarters) && milli != ZERO_MILLIS
    requires hour < 24 && minute < 60 && second < 60 && ms < 1000
    requires milli + quarters * 15 * 60 * 1000 == (((day * 24 + hour) * 60 + minute) * 60 + second) * 1000 + ms
    ensures var t := Time(milli * 1_000_000, quarters * 15 * 60);
      UnpackDatetime(PackDatetime(t)) ==
      Time((milli + if hour == minute == second == ms == 0 && !(milli == 0 && quarters == 0) then 1 else 0) * 1_000_000, quarters * 15 * 60)
  {
    RoundTripExact(milli, quarters);
    WholeFields(milli, quarters);
    MidnightByClock(milli, quarters, day, hour, minute, second, ms);
  }

  lemma MidnightByClock(milli: int, quarters: int, day: int, hour: nat, minute: nat, second: nat, ms: nat)
    requires hour < 24 && minute < 60 && second < 60 && ms < 1000
    requires milli + quarters * 15 * 60 * 1000 == (((day * 24 + hour) * 60 + minute) * 60 + second) * 1000 + ms
    ensures IsMidnight(milli, quarters) <==> hour == minute == second == ms == 0 && !(milli == 0 && quarters == 0)
  {
    ClockOfDay(milli + quarters * QUARTER_MILLIS, day, ((hour * 60 + minute) * 60 + second) * 1000 + ms);
  }

  lemma ClockOfDay(local: int, day: int, ofDay: nat)
    requires local == day * 86_400_000 + ofDay && ofDay < 86_400_000
    ensures local % MS_PER_DAY == ofDay
  {
    ModUnique(local, 86_400_000, day, ofDay);
  }

  /** The zero time is midnight of the first day of year 1: 1969 years, 477 of them leap years, before 1970. */
  lemma ZeroIsFirstOfYearOne()
    ensures ZERO_TIME.nanos == -(1969 * 365 + 477) * 24 * 60 * 60 * 1_000_000_000 && ZERO_TIME.offset == 0
    ensures ZERO_MILLIS * 1_000_000 == ZERO_TIME.nanos && 477 == 1969 / 4 - 1969 / 100 + 1969 / 400
  {
  }

  /** Reading the fields of a whole-millisecond time in a quarter-hour zone. */
  lemma WholeFields(milli: int, quarters: int)
    ensures var t := Time(milli * NANOS_PER_MILLI, quarters * 900);
      t.nanos / NANOS_PER_MILLI == milli && ZoneValue(t) == quarters
  {
  }

  /** A shifted time is not a midnight again. */
  lemma ShiftedIsStable(milli: int, tz: int)
    ensures Shifted(Shifted(milli, tz), tz) == Shifted(milli, tz)
    ensures EpochField(Shifted(milli, tz), tz) == EpochField(milli, tz)
  {
    MidnightIsEven(milli, tz);
    MidnightIsEven(milli + 1, tz);
  }

  lemma PackShifted(milli: int, tz: int)
    requires FieldsFit(milli, tz)
    ensures Pack(Shifted(milli, tz), tz) == Pack(milli, tz)
  {
    ShiftedFits(milli, tz);
    ShiftedIsStable(milli, tz);
    PackedFields(milli, tz);
    PackedFields(Shifted(milli, tz), tz);
  }

  /**
   Packing again what was unpacked gives the same value, except for one family: a time less than a
   millisecond after the zero instant, in a zone other than UTC, unpacks to the zero instant and
   then packs to 0.
   */
  lemma RepackIsStable(t: Time)
    requires Packable(t)
    ensures PackDatetime(UnpackDatetime(PackDatetime(t))) == PackDatetime(t) <==>
            !(t.nanos / NANOS_PER_MILLI == ZERO_MILLIS && !IsZero(t) && ZoneValue(t) != 0)
  {
    if !IsZero(t) {
      var milli, tz := t.nanos / NANOS_PER_MILLI, ZoneValue(t);
      RoundTrip(t);
      WholeFields(Shifted(milli, tz), tz);
      PackShifted(milli, tz);
      PackIsNotZero(milli, tz);
      ShiftedFits(milli, tz);
      ShiftedToZero(milli, tz);
    } else {
      RoundTrip(t);
    }
  }

  /** A time of that family: one nanosecond after the zero instant, a quarter of an hour east of UTC. */
  lemma RepackMayFail()
    ensures var t := Time(ZERO_TIME.nanos + 1, 900);
      Packable(t) && PackDatetime(UnpackDatetime(PackDatetime(t))) != PackDatetime(t)
  {
    RepackIsStable(Time(ZERO_TIME.nanos + 1, 900));
  }

  /** Among the zones that fit, the zero instant is a midnight only in UTC, and no midnight is 1 ms before it. */
  lemma ShiftedToZero(milli: int, tz: int)
    requires -64 <= tz <= 63
    ensures Shifted(milli, tz) == ZERO_MILLIS <==> milli == ZERO_MILLIS && tz != 0
  {
    MidnightIsEven(milli, tz);
  }
}
