/** `DATE` and `DATETIME2` values of `jiff` dates and times. */
module DateTime2 {
  import opened Common
  import opened Calendar

  const DAYS_FROM_YEAR_ONE_TO_EPOCH := 719162
  const MAX_DAYS := 3652058
  const NANOS_PER_SECOND := 1_000_000_000
  const SECONDS_PER_MINUTE := 60
  const SECONDS_PER_HOUR := 3600
  const NANOS_PER_DAY := 86_400 * NANOS_PER_SECOND
  const U64_MAX := 0xFFFF_FFFF_FFFF_FFFF

  type u64 = x: int | 0 <= x <= U64_MAX

  /** The dates of `jiff::civil::Date`, from -9999-01-01 to 9999-12-31. */
  predicate IsDate(d: Civil) {
    ValidCivil(d) && -9999 <= d.year <= 9999
  }

  type Date = d: Civil | IsDate(d) witness Civil(1970, 1, 1)

  datatype ClockTime = ClockTime(hour: int, minute: int, second: int, subsecond: int)

  predicate IsTime(t: ClockTime) {
    && 0 <= t.hour < 24 && 0 <= t.minute < 60 && 0 <= t.second < 60
    && 0 <= t.subsecond < NANOS_PER_SECOND
  }

  type Time = t: ClockTime | IsTime(t) witness ClockTime(0, 0, 0, 0)

  datatype DateTime = DateTime(date: Date, time: Time)

  /** Days since 0001-01-01 and 100-nanosecond ticks since midnight. */
  datatype SqlDateTime2 = SqlDateTime2(days: u32, ticks: u64)

  // ----- The conversions

  function DateFromUnixDays(unixDays: int): Option<Date> {
    var d := CivilOf(unixDays);
    if -0x8000 <= d.year < 0x8000 && -0x80 <= d.month < 0x80 && -0x80 <= d.day < 0x80 && IsDate(d)
    then Some(d) else None
  }

  function DateFromDays(days: u32): Option<Date> {
    DateFromUnixDays(days - DAYS_FROM_YEAR_ONE_TO_EPOCH)
  }

  function DaysFromDate(d: Date): Option<u32> {
    var days := UnixDays(d) + DAYS_FROM_YEAR_ONE_TO_EPOCH;
    if 0 <= days < 0x1_0000_0000 then Some(days) else None
  }

  function NanosFromTime(t: Time): u64 {
    (t.hour * SECONDS_PER_HOUR + t.minute * SECONDS_PER_MINUTE + t.second) * NANOS_PER_SECOND + t.subsecond
  }

  function TimeFromNanos(nanos: u64): Option<Time> {
    var total := nanos / NANOS_PER_SECOND;
    var hour := total / SECONDS_PER_HOUR;
    var t := ClockTime(hour, total % SECONDS_PER_HOUR / SECONDS_PER_MINUTE, total % SECONDS_PER_MINUTE,
                       nanos % NANOS_PER_SECOND);
    if hour < 0x80 && IsTime(t) then Some(t) else None
  }

  function NanosToTicks(nanos: u64): u64 {
    nanos / 100
  }

  function TicksToNanos(ticks: u64): u64 {
    if ticks * 100 <= U64_MAX then ticks * 100 else U64_MAX
  }

  function FromCivil(v: DateTime): Option<SqlDateTime2> {
    var days := DaysFromDate(v.date);
    if days.None? then None
    else Some(SqlDateTime2(days.value, NanosToTicks(NanosFromTime(v.time))))
  }

  function ToCivil(v: SqlDateTime2): Option<DateTime> {
    var date, time := DateFromDays(v.days), TimeFromNanos(TicksToNanos(v.ticks));
    if date.None? || time.None? then None else Some(DateTime(date.value, time.value))
  }

  // ----- Dates

  const YEAR_ONE := Civil(1, 1, 1)
  const LAST_DAY := Civil(9999, 12, 31)

  /** The shift of `DATETIME2` days is the day number of their first day. */
  lemma {:induction false} FirstDay()
    ensures UnixDays(YEAR_ONE) == -DAYS_FROM_YEAR_ONE_TO_EPOCH
  {}

  /** Day numbers order dates as the calendar does. */
  lemma {:induction false} SameOrder(a: Civil, b: Civil)
    requires ValidCivil(a) && ValidCivil(b)
    ensures Before(a, b) <==> UnixDays(a) < UnixDays(b)
    ensures a == b <==> UnixDays(a) == UnixDays(b)
  {
    if Before(a, b) {
      UnixDaysMonotone(a, b);
    } else if Before(b, a) {
      UnixDaysMonotone(b, a);
    } else {
      assert a == b;
    }
  }

  lemma {:induction false} FromYearOne(d: Civil)
    requires ValidCivil(d)
    ensures Before(d, YEAR_ONE) <==> d.year < 1
    ensures Before(d, YEAR_ONE) <==> UnixDays(d) + DAYS_FROM_YEAR_ONE_TO_EPOCH < 0
  {
    FirstDay();
    SameOrder(d, YEAR_ONE);
  }

  lemma {:induction false} ToLastDay(d: Civil)
    requires ValidCivil(d)
    ensures d.year <= 9999 <==> UnixDays(d) + DAYS_FROM_YEAR_ONE_TO_EPOCH <= MAX_DAYS
  {
    SameOrder(LAST_DAY, d);
  }

  /** A date is encoded unless it is earlier than 0001-01-01, and decodes to
      itself. */
  lemma {:induction false} DateRoundTrip(d: Date)
    ensures DaysFromDate(d).None? <==> Before(d, YEAR_ONE)
    ensures DaysFromDate(d).Some? ==> DateFromDays(DaysFromDate(d).value) == Some(d)
  {
    FromYearOne(d);
    ToLastDay(d);
    CivilOfUnixDays(d);
    DateOfDays(UnixDays(d), d);
  }

  lemma {:induction false} DateOfDays(unixDays: int, d: Date)
    requires CivilOf(unixDays) == d
    ensures DateFromUnixDays(unixDays) == Some(d)
  {}

  /** A day count is decoded unless it is later than 9999-12-31, and encodes to
      itself. */
  lemma {:induction false} DaysRoundTrip(days: u32)
    ensures DateFromDays(days).Some? <==> days <= MAX_DAYS
    ensures DateFromDays(days).Some? ==> DaysFromDate(DateFromDays(days).value) == Some(days)
  {
    var d := CivilOf(days - DAYS_FROM_YEAR_ONE_TO_EPOCH);
    UnixDaysOfCivil(days - DAYS_FROM_YEAR_ONE_TO_EPOCH);
    InRange(d, days);
  }

  lemma {:induction false} InRange(d: Civil, days: nat)
    requires ValidCivil(d) && UnixDays(d) + DAYS_FROM_YEAR_ONE_TO_EPOCH == days
    ensures 1 <= d.year && (d.year <= 9999 <==> days <= MAX_DAYS)
  {
    FromYearOne(d);
    ToLastDay(d);
  }

  // ----- Times

  /** The time of day without what a tick cannot hold. */
  function Truncated(t: Time): Time {
    t.(subsecond := t.subsecond - t.subsecond % 100)
  }

  lemma {:induction false} TimeOfNanos(t: Time)
    ensures NanosFromTime(t) < NANOS_PER_DAY
    ensures TimeFromNanos(NanosFromTime(t)) == Some(t)
  {
    var total := t.hour * SECONDS_PER_HOUR + t.minute * SECONDS_PER_MINUTE + t.second;
    var nanos := NanosFromTime(t);
    assert nanos / NANOS_PER_SECOND == total && nanos % NANOS_PER_SECOND == t.subsecond;
    assert total / SECONDS_PER_HOUR == t.hour;
    assert total % SECONDS_PER_HOUR == t.minute * SECONDS_PER_MINUTE + t.second;
  }

  /** Whatever the tick count, it is a time of day exactly below 24 hours. */
  lemma {:induction false} NanosOfTime(nanos: u64)
    ensures TimeFromNanos(nanos).Some? <==> nanos < NANOS_PER_DAY
    ensures TimeFromNanos(nanos).Some? ==> NanosFromTime(TimeFromNanos(nanos).value) == nanos
  {
    var total := nanos / NANOS_PER_SECOND;
    assert nanos == total * NANOS_PER_SECOND + nanos % NANOS_PER_SECOND;
    assert total / SECONDS_PER_HOUR < 24 <==> total < 86_400;
  }

  lemma {:induction false} TicksTruncate(t: Time)
    ensures TicksToNanos(NanosToTicks(NanosFromTime(t))) == NanosFromTime(Truncated(t))
  {
    TimeOfNanos(t);
    var total := t.hour * SECONDS_PER_HOUR + t.minute * SECONDS_PER_MINUTE + t.second;
    assert NanosFromTime(t) == 100 * (total * 10_000_000 + t.subsecond / 100) + t.subsecond % 100;
  }

  lemma {:induction false} TicksRoundTrip(ticks: u64)
    ensures TicksToNanos(ticks) < NANOS_PER_DAY <==> ticks < NANOS_PER_DAY / 100
    ensures TicksToNanos(ticks) < NANOS_PER_DAY ==> NanosToTicks(TicksToNanos(ticks)) == ticks
  {}

  /** Ticks tell times apart as far as truncation does. */
  lemma {:induction false} TicksSeparate(a: Time, b: Time)
    ensures NanosToTicks(NanosFromTime(a)) == NanosToTicks(NanosFromTime(b)) <==> Truncated(a) == Truncated(b)
  {
    TicksTruncate(a);
    TicksTruncate(b);
    TimeOfNanos(Truncated(a));
    TimeOfNanos(Truncated(b));
    TimeOfNanos(a);
    TimeOfNanos(b);
    TicksRoundTrip(NanosToTicks(NanosFromTime(a)));
    TicksRoundTrip(NanosToTicks(NanosFromTime(b)));
  }

  // ----- Main results

  /** Encoding fails exactly before year one, and otherwise decodes to the value
      truncated to 100 nanoseconds. */
  lemma {:induction false} CivilRoundTrip(v: DateTime)
    ensures FromCivil(v).None? <==> Before(v.date, YEAR_ONE)
    ensures FromCivil(v).Some? ==> ToCivil(FromCivil(v).value) == Some(DateTime(v.date, Truncated(v.time)))
  {
    DateRoundTrip(v.date);
    TicksTruncate(v.time);
    TimeOfNanos(Truncated(v.time));
  }

  /** Decoding fails exactly for a day after 9999-12-31 or a tick count of a day
      or more, and what it gives encodes to the same value. */
  lemma {:induction false} SqlRoundTrip(v: SqlDateTime2)
    ensures ToCivil(v).Some? <==> v.days <= MAX_DAYS && v.ticks < NANOS_PER_DAY / 100
    ensures ToCivil(v).Some? ==> FromCivil(ToCivil(v).value) == Some(v)
  {
    DaysRoundTrip(v.days);
    NanosOfTime(TicksToNanos(v.ticks));
    TicksRoundTrip(v.ticks);
  }

  predicate EarlierTime(a: ClockTime, b: ClockTime) {
    || a.hour < b.hour
    || (a.hour == b.hour && a.minute < b.minute)
    || (a.hour == b.hour && a.minute == b.minute && a.second < b.second)
    || (a.hour == b.hour && a.minute == b.minute && a.second == b.second && a.subsecond < b.subsecond)
  }

  predicate NotAfter(a: DateTime, b: DateTime) {
    || Before(a.date, b.date)
    || (a.date == b.date && (a.time == b.time || EarlierTime(a.time, b.time)))
  }

  predicate SqlNotAfter(a: SqlDateTime2, b: SqlDateTime2) {
    a.days < b.days || (a.days == b.days && a.ticks <= b.ticks)
  }

  /** Encoding keeps the order of moments, so the server sorts as the program does. */
  lemma {:induction false} EncodingKeepsOrder(a: DateTime, b: DateTime)
    requires FromCivil(a).Some? && FromCivil(b).Some? && NotAfter(a, b)
    ensures SqlNotAfter(FromCivil(a).value, FromCivil(b).value)
  {
    SameOrder(a.date, b.date);
    if EarlierTime(a.time, b.time) {
      NanosInOrder(a.time, b.time);
    }
  }

  lemma {:induction false} NanosInOrder(a: Time, b: Time)
    requires EarlierTime(a, b)
    ensures NanosFromTime(a) < NanosFromTime(b)
  {}

  /** What is sent, in figures: the days from 0001-01-01, and the ticks of 100
      nanoseconds from midnight. */
  lemma {:induction false} SentInFigures(v: DateTime)
    requires FromCivil(v).Some?
    ensures var t, sent := v.time, FromCivil(v).value;
            && sent.days == UnixDays(v.date) + 719162
            && sent.ticks == (t.hour * 3600 + t.minute * 60 + t.second) * 10000000 + t.subsecond / 100
  {
    var t := v.time;
    var seconds := t.hour * 3600 + t.minute * 60 + t.second;
    assert NanosFromTime(t) == 100 * (seconds * 10000000 + t.subsecond / 100) + t.subsecond % 100;
  }

  /** Two moments are confused only when they lie in the same tick. */
  lemma {:induction false} EncodingSeparates(a: DateTime, b: DateTime)
    requires FromCivil(a).Some?
    ensures FromCivil(a) == FromCivil(b) <==> a.date == b.date && Truncated(a.time) == Truncated(b.time)
  {
    TicksSeparate(a.time, b.time);
    DateRoundTrip(a.date);
    DateRoundTrip(b.date);
  }
}
