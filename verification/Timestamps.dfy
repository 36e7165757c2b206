/** Splitting 100-nanosecond ticks since the UNIX epoch into days and time of day. */
module Timestamps {
  import opened ByteCodec

  const TICKS_PER_SECOND := 10_000_000
  const TICKS_PER_DAY := TICKS_PER_SECOND * 86_400
  const EPOCH_DAYS_FROM_YEAR_ONE := 719_162
  const DAYS_1900_TO_EPOCH := 25_567
  const MAX_DATETIME2_DAYS := 3_652_058
  const MAX_SMALLDATETIME_DAYS := 65_535

  datatype TimeUnit = Second | Millisecond | Microsecond | Nanosecond

  function Checked64(v: int): Option<i64> {
    if -0x8000_0000_0000_0000 <= v < 0x8000_0000_0000_0000 then Some(v) else None
  }

  /** `read_timestamp`: an Arrow timestamp in ticks; pre-epoch nanoseconds are floored. */
  function ReadTicks(raw: i64, unit: TimeUnit): Option<i64> {
    match unit
    case Second => Checked64(raw * TICKS_PER_SECOND)
    case Millisecond => Checked64(raw * (TICKS_PER_SECOND / 1_000))
    case Microsecond => Checked64(raw * (TICKS_PER_SECOND / 1_000_000))
    case Nanosecond => Some(raw / 100)
  }

  function Nanoseconds(raw: int, unit: TimeUnit): int {
    match unit
    case Second => 1_000_000_000 * raw
    case Millisecond => 1_000_000 * raw
    case Microsecond => 1_000 * raw
    case Nanosecond => raw
  }

  /** Every unit is read as the same instant, rounded down to a tick; it is refused exactly when that tick
      count does not fit 64 bits. */
  lemma TicksAreFloor(raw: i64, unit: TimeUnit)
    ensures ReadTicks(raw, unit) == Checked64(Nanoseconds(raw, unit) / 100)
  {
    assert 1_000_000_000 * raw / 100 == raw * TICKS_PER_SECOND;
    assert 1_000_000 * raw / 100 == raw * 10_000;
    assert 1_000 * raw / 100 == raw * 10;
  }

  // datetime2

  datatype DateTime2 = DateTime2(days: int, time: int, scale: byte)

  /** `timestamp_to_dt2`. */
  function ToDateTime2(ticks: i64, scale: byte): Option<DateTime2> {
    var days := ticks / TICKS_PER_DAY + EPOCH_DAYS_FROM_YEAR_ONE;
    if 0 <= days <= MAX_DATETIME2_DAYS then Some(DateTime2(days, ticks % TICKS_PER_DAY, scale)) else None
  }

  function SinceYearOne(ticks: int): int { ticks + EPOCH_DAYS_FROM_YEAR_ONE * TICKS_PER_DAY }

  function Since1900(ticks: int): int { ticks + DAYS_1900_TO_EPOCH * TICKS_PER_DAY }

  /** No tick is lost, and a value is refused exactly outside years 1 to 9999. */
  lemma DateTime2Lossless(ticks: i64, scale: byte)
    ensures ToDateTime2(ticks, scale).Some? <==> 0 <= SinceYearOne(ticks) < (MAX_DATETIME2_DAYS + 1) * TICKS_PER_DAY
    ensures ToDateTime2(ticks, scale).Some? ==>
              var d := ToDateTime2(ticks, scale).value;
              && d.days * TICKS_PER_DAY + d.time == SinceYearOne(ticks)
              && 0 <= d.time < TICKS_PER_DAY && d.scale == scale
  {
    assert ticks == ticks / TICKS_PER_DAY * TICKS_PER_DAY + ticks % TICKS_PER_DAY;
  }

  predicate Before(a: DateTime2, b: DateTime2) { a.days < b.days || (a.days == b.days && a.time < b.time) }

  /** Order is kept both ways. */
  lemma DateTime2Ordered(a: i64, b: i64, scale: byte)
    requires ToDateTime2(a, scale).Some? && ToDateTime2(b, scale).Some?
    ensures a < b <==> Before(ToDateTime2(a, scale).value, ToDateTime2(b, scale).value)
  {
    DateTime2Lossless(a, scale);
    DateTime2Lossless(b, scale);
  }

  // datetime and smalldatetime

  datatype Components = Components(days: int, hour: int, minute: int, second: int, microsecond: int)

  /** `timestamp_to_1900_components`. */
  function To1900Components(ticks: i64): Components {
    var days := ticks / TICKS_PER_DAY + DAYS_1900_TO_EPOCH;
    var totalUs := ticks % TICKS_PER_DAY / 10;
    var inHour := totalUs % 3_600_000_000;
    var inMinute := inHour % 60_000_000;
    Components(days, totalUs / 3_600_000_000, inHour / 60_000_000, inMinute / 1_000_000, inMinute % 1_000_000)
  }

  function Minutes(c: Components): int { 1440 * c.days + 60 * c.hour + c.minute }

  function Microseconds(c: Components): int { 60_000_000 * Minutes(c) + 1_000_000 * c.second + c.microsecond }

  predicate InClock(c: Components) {
    0 <= c.hour < 24 && 0 <= c.minute < 60 && 0 <= c.second < 60 && 0 <= c.microsecond < 1_000_000
  }

  /** The components name the same instant, truncated to microseconds, on the clock. */
  lemma ComponentsSameInstant(ticks: i64)
    ensures InClock(To1900Components(ticks))
    ensures var us := Microseconds(To1900Components(ticks)); 10 * us <= Since1900(ticks) < 10 * us + 10
  {
    var inDay := ticks % TICKS_PER_DAY;
    assert ticks == ticks / TICKS_PER_DAY * TICKS_PER_DAY + inDay;
    var us := inDay / 10;
    var inHour := us % 3_600_000_000;
    assert us == 3_600_000_000 * (us / 3_600_000_000) + inHour;
    assert inHour == 60_000_000 * (inHour / 60_000_000) + inHour % 60_000_000;
  }

  /** Both splits count the same days, from 1900 and from year one. */
  lemma DaysDiffer(ticks: i64, scale: byte)
    requires ToDateTime2(ticks, scale).Some?
    ensures ToDateTime2(ticks, scale).value.days == To1900Components(ticks).days + 693_595
  {
  }

  datatype SmallDateTime = SmallDateTime(days: u16, time: u16)

  /** Minutes since 1900, to the nearest minute. */
  function RoundedMinutes(ticks: int): int { (Since1900(ticks) + 30 * TICKS_PER_SECOND) / (60 * TICKS_PER_SECOND) }

  /** Rounding the components is rounding the instant. */
  lemma RoundedComponents(ticks: i64)
    ensures var c := To1900Components(ticks); RoundedMinutes(ticks) == Minutes(c) + if c.second >= 30 then 1 else 0
    ensures To1900Components(ticks).days >= 0 <==> Since1900(ticks) >= 0
  {
    ComponentsSameInstant(ticks);
    var c := To1900Components(ticks);
    var s := Since1900(ticks);
    var m := Minutes(c);
    assert 600_000_000 * m + 10_000_000 * c.second <= s < 600_000_000 * m + 10_000_000 * c.second + 10_000_000;
  }

  /** The last thirty seconds before 1900 round to 1900. */
  lemma RoundsUpTo1900(ticks: int)
    ensures RoundedMinutes(ticks) >= 0 <==> Since1900(ticks) >= -30 * TICKS_PER_SECOND
    ensures Since1900(ticks) < 0 ==> RoundedMinutes(ticks) <= 0
  {
  }

  /** The smalldatetime arm: seconds from 30 on round the minute up, carrying into hours and days. A value
      is refused exactly when it precedes 1900 or rounds past the last day; the last thirty seconds before
      1900 are the values refused although they round into range. */
  method ToSmallDateTime(ticks: i64) returns (r: Option<SmallDateTime>)
    ensures r.Some? <==> Since1900(ticks) >= 0 && RoundedMinutes(ticks) < (MAX_SMALLDATETIME_DAYS + 1) * 1440
    ensures r.Some? ==> 1440 * r.value.days + r.value.time == RoundedMinutes(ticks) && r.value.time < 1440
    ensures r.None? && 0 <= RoundedMinutes(ticks) < (MAX_SMALLDATETIME_DAYS + 1) * 1440 <==>
            -30 * TICKS_PER_SECOND <= Since1900(ticks) < 0
  {
    var c := To1900Components(ticks);
    RoundedComponents(ticks);
    ComponentsSameInstant(ticks);
    RoundsUpTo1900(ticks);
    hide To1900Components, RoundedMinutes, Since1900;
    if !(0 <= c.days <= MAX_SMALLDATETIME_DAYS) {
      return None;
    }
    var minute, hour, days := c.minute, c.hour, c.days;
    if c.second >= 30 {
      minute := minute + 1;
      if minute >= 60 {
        minute, hour := 0, hour + 1;
        if hour >= 24 {
          hour, days := 0, days + 1;
        }
      }
    }
    if !(0 <= days <= MAX_SMALLDATETIME_DAYS) {
      return None;
    }
    return Some(SmallDateTime(days, hour * 60 + minute));
  }
}
