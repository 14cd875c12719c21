/** Day numbers of the proleptic Gregorian calendar, for every integer year. */
module Calendar {
  datatype Civil = Civil(year: int, month: int, day: int)

  // ----- The calendar itself

  predicate Leap(year: int) {
    year % 4 == 0 && (year % 100 != 0 || year % 400 == 0)
  }

  function DaysInMonth(year: int, month: int): int {
    if month == 2 then (if Leap(year) then 29 else 28)
    else if month == 4 || month == 6 || month == 9 || month == 11 then 30
    else 31
  }

  predicate ValidCivil(d: Civil) {
    1 <= d.month <= 12 && 1 <= d.day <= DaysInMonth(d.year, d.month)
  }

  function NextDay(d: Civil): Civil {
    if d.day < DaysInMonth(d.year, d.month) then d.(day := d.day + 1)
    else if d.month < 12 then Civil(d.year, d.month + 1, 1)
    else Civil(d.year + 1, 1, 1)
  }

  predicate Before(a: Civil, b: Civil) {
    || a.year < b.year
    || (a.year == b.year && a.month < b.month)
    || (a.year == b.year && a.month == b.month && a.day < b.day)
  }

  // ----- The driver's arithmetic

  /** `unix_days_from_date`. */
  function UnixDays(d: Civil): int {
    var adjustedYear := d.year - (if d.month <= 2 then 1 else 0);
    var era := adjustedYear / 400;
    var yearOfEra := adjustedYear - era * 400;
    var monthShift := if d.month > 2 then d.month - 3 else d.month + 9;
    var dayOfYear := (153 * monthShift + 2) / 5 + d.day - 1;
    var dayOfEra := yearOfEra * 365 + yearOfEra / 4 - yearOfEra / 100 + dayOfYear;
    era * 146097 + dayOfEra - 719468
  }

  /** The civil triple that `date_from_unix_days` computes before its range check. */
  function CivilOf(unixDays: int): Civil {
    var shifted := unixDays + 719468;
    var era := shifted / 146097;
    FromDayOfEra(era, shifted - era * 146097)
  }

  function FromDayOfEra(era: int, dayOfEra: int): Civil {
    var yearOfEra := YearOfEra(dayOfEra);
    FromDayOfYear(era, yearOfEra, dayOfEra - (365 * yearOfEra + yearOfEra / 4 - yearOfEra / 100))
  }

  function YearOfEra(dayOfEra: int): int {
    (dayOfEra - dayOfEra / 1460 + dayOfEra / 36524 - dayOfEra / 146096) / 365
  }

  function FromDayOfYear(era: int, yearOfEra: int, dayOfYear: int): Civil {
    FromParts(era, yearOfEra, dayOfYear, (5 * dayOfYear + 2) / 153)
  }

  function FromParts(era: int, yearOfEra: int, dayOfYear: int, monthShift: int): Civil {
    var day := dayOfYear - (153 * monthShift + 2) / 5 + 1;
    var month := if monthShift < 10 then monthShift + 3 else monthShift - 9;
    Civil(yearOfEra + era * 400 + (if month <= 2 then 1 else 0), month, day)
  }

  // ----- Years that start in March

  /** The year that starts on 1 March; January and February end it. */
  function MarchYear(d: Civil): int {
    if d.month <= 2 then d.year - 1 else d.year
  }

  function Shift(d: Civil): int {
    if d.month > 2 then d.month - 3 else d.month + 9
  }

  /** The days before the `shift`-th month of a March year. */
  function MonthStart(shift: int): int {
    (153 * shift + 2) / 5
  }

  function DayOfYear(d: Civil): int {
    MonthStart(Shift(d)) + d.day - 1
  }

  function YearOffset(yearOfEra: int): int {
    yearOfEra * 365 + yearOfEra / 4 - yearOfEra / 100
  }

  /** The days before a March year, counted from the year zero's. */
  function YearStart(a: int): int {
    a / 400 * 146097 + YearOffset(a % 400)
  }

  /** The last day of a March year is 29 February when the next year is leap. */
  function YearLength(a: int): int {
    if Leap(a + 1) then 366 else 365
  }

  lemma {:induction false} UnixDaysParts(d: Civil)
    ensures UnixDays(d) == YearStart(MarchYear(d)) + DayOfYear(d) - 719468
  {}

  /** A 366th day needs a leap year, which ends a group of four. */
  lemma {:induction false} LongYear(e: int, y: int)
    requires 0 <= y < 400
    ensures Leap(400 * e + y + 1) <==> y % 4 == 3 && (y % 100 / 4 < 24 || y / 100 == 3)
  {
    WholeEras4(e, y + 1);
    WholeEras100(e, y + 1);
    WholeEras400(e, y + 1);
    LastOfFour(y);
    LastOfCentury(y);
  }

  lemma {:induction false} LastOfFour(y: int)
    requires 0 <= y < 400
    ensures (y + 1) % 4 == 0 <==> y % 4 == 3
    ensures (y + 1) % 400 == 0 <==> y == 399
  {}

  lemma {:induction false} LastOfCentury(y: int)
    requires 0 <= y < 400
    ensures (y + 1) % 100 == 0 <==> y % 4 == 3 && y % 100 / 4 == 24
    ensures y == 399 <==> y % 4 == 3 && y % 100 / 4 == 24 && y / 100 == 3
  {
    var n := y % 100;
    assert y == 100 * (y / 100) + n;
    assert y % 4 == n % 4;
    assert n == 4 * (n / 4) + n % 4;
  }

  lemma {:induction false} WholeEras4(e: int, n: int)
    ensures (400 * e + n) % 4 == n % 4
  {
    assert 400 * e + n == 4 * (100 * e + n / 4) + n % 4;
  }

  lemma {:induction false} WholeEras100(e: int, n: int)
    ensures (400 * e + n) % 100 == n % 100
  {}

  lemma {:induction false} WholeEras400(e: int, n: int)
    ensures (400 * e + n) % 400 == n % 400
  {}

  lemma {:induction false} YearOffsetStep(y: int)
    requires 0 <= y < 400
    ensures YearOffset(y + 1) + (if y == 399 then 1 else 0) ==
            YearOffset(y) + (if y % 4 == 3 && (y % 100 / 4 < 24 || y / 100 == 3) then 366 else 365)
  {
    var q, r, c, n := y / 4, y % 4, y / 100, y % 100;
    assert y == 4 * q + r && y == 100 * c + n;
    assert (y + 1) / 4 == if r == 3 then q + 1 else q;
    assert (y + 1) / 100 == if n == 99 then c + 1 else c;
    assert r == 3 && n / 4 == 24 <==> n == 99;
  }

  lemma {:induction false} YearStartParts(e: int, y: int)
    requires 0 <= y < 400
    ensures YearStart(400 * e + y) == 146097 * e + YearOffset(y)
  {
    assert (400 * e + y) / 400 == e && (400 * e + y) % 400 == y;
  }

  lemma {:induction false} NextYearStart(a: int)
    ensures YearStart(a + 1) == YearStart(a) + YearLength(a)
  {
    var e, y := a / 400, a % 400;
    YearStartParts(e, y);
    LongYear(e, y);
    YearOffsetStep(y);
    if y == 399 {
      YearStartParts(e + 1, 0);
    } else {
      YearStartParts(e, y + 1);
    }
  }

  lemma {:induction false} YearStartsApart(a: int, b: int)
    requires a < b
    ensures YearStart(a) + YearLength(a) <= YearStart(b)
    decreases b - a
  {
    NextYearStart(b - 1);
    if a < b - 1 {
      YearStartsApart(a, b - 1);
    }
  }

  /** Month starts are the running sums of the month lengths. */
  lemma {:induction false} MonthStarts(d: Civil)
    requires ValidCivil(d)
    ensures 0 <= Shift(d) <= 11
    ensures 0 <= DayOfYear(d) < YearLength(MarchYear(d))
    ensures Shift(d) < 11 ==> MonthStart(Shift(d)) + DaysInMonth(d.year, d.month) == MonthStart(Shift(d) + 1)
    ensures Shift(d) == 11 ==> MonthStart(11) + DaysInMonth(d.year, d.month) == YearLength(MarchYear(d))
  {}

  // ----- Day numbers count days

  /** The day after any valid date has the next day number. */
  lemma {:induction false} NextDayIsOneMore(d: Civil)
    requires ValidCivil(d)
    ensures ValidCivil(NextDay(d))
    ensures UnixDays(NextDay(d)) == UnixDays(d) + 1
  {
    var next := NextDay(d);
    UnixDaysParts(d);
    UnixDaysParts(next);
    MonthStarts(d);
    if d.day < DaysInMonth(d.year, d.month) {
      assert MarchYear(next) == MarchYear(d) && DayOfYear(next) == DayOfYear(d) + 1;
    } else if d.month == 2 {
      assert MarchYear(next) == MarchYear(d) + 1 && DayOfYear(next) == 0;
      NextYearStart(MarchYear(d));
    } else {
      assert MarchYear(next) == MarchYear(d) && Shift(next) == Shift(d) + 1;
    }
  }

  /** Earlier dates have smaller day numbers. */
  lemma {:induction false} UnixDaysMonotone(a: Civil, b: Civil)
    requires ValidCivil(a) && ValidCivil(b) && Before(a, b)
    ensures UnixDays(a) < UnixDays(b)
  {
    UnixDaysParts(a);
    UnixDaysParts(b);
    MonthStarts(a);
    MonthStarts(b);
    if MarchYear(a) < MarchYear(b) {
      YearStartsApart(MarchYear(a), MarchYear(b));
    } else {
      MonthStartsOrdered(a, b);
    }
  }

  lemma {:induction false} MonthStartsOrdered(a: Civil, b: Civil)
    requires ValidCivil(a) && ValidCivil(b)
    requires MarchYear(a) == MarchYear(b) && (Shift(a) < Shift(b) || (Shift(a) == Shift(b) && a.day < b.day))
    ensures DayOfYear(a) < DayOfYear(b)
  {}

  // ----- The inverse

  /** The year of an era, by its century, four-year group and year. */
  lemma {:induction false} EraYear(c: int, k: int, s: int, doy: int)
    requires 0 <= c <= 3 && 0 <= k <= 24 && 0 <= s <= 3 && 0 <= doy <= 365
    requires doy == 365 ==> s == 3 && (k < 24 || c == 3)
    ensures var doe := 36524 * c + 1461 * k + 365 * s + doy;
            && YearOffset(100 * c + 4 * k + s) == 36524 * c + 1461 * k + 365 * s
            && 0 <= doe < 146097
            && YearOfEra(doe) == 100 * c + 4 * k + s
  {
    var y, doe := 100 * c + 4 * k + s, 36524 * c + 1461 * k + 365 * s + doy;
    assert y / 100 == c && y / 4 == 25 * c + k;
    CenturyOfEra(c, 1461 * k + 365 * s + doy);
    var v := (24 * c + k + 365 * s + doy) / 1460;
    FourYearsOfEra(c, k, s, doy, v);
    assert doe - doe / 1460 + c == 365 * y + (doy - v);
  }

  lemma {:induction false} CenturyOfEra(c: int, t: int)
    requires 0 <= c <= 3 && 0 <= t <= 36524 && (t == 36524 ==> c == 3)
    ensures (36524 * c + t) / 36524 - (36524 * c + t) / 146096 == c
  {}

  lemma {:induction false} FourYearsOfEra(c: int, k: int, s: int, doy: int, v: int)
    requires 0 <= c <= 3 && 0 <= k <= 24 && 0 <= s <= 3 && 0 <= doy <= 365
    requires doy == 365 ==> s == 3 && (k < 24 || c == 3)
    requires v == (24 * c + k + 365 * s + doy) / 1460
    ensures (36524 * c + 1461 * k + 365 * s + doy) / 1460 == 25 * c + k + v
    ensures 0 <= doy - v < 365
  {}

  /** The day of the year determines the month and the day. */
  lemma {:induction false} MonthOfDay(shift: int, doy: int)
    requires 0 <= shift <= 11 && MonthStart(shift) <= doy < MonthStart(shift + 1)
    ensures (5 * doy + 2) / 153 == shift
  {}

  lemma {:induction false} DayHasMonth(doy: int)
    requires 0 <= doy <= 365
    ensures var shift := (5 * doy + 2) / 153;
            0 <= shift <= 11 && MonthStart(shift) <= doy < MonthStart(shift + 1)
  {}

  /** `CivilOf` in terms of the year of its era and the day of its year. */
  lemma {:induction false} CivilOfParts(e: int, y: int, doy: int, shift: int)
    requires 0 <= YearOffset(y) + doy < 146097
    requires YearOfEra(YearOffset(y) + doy) == y
    requires (5 * doy + 2) / 153 == shift
    ensures CivilOf(146097 * e + (YearOffset(y) + doy) - 719468) == FromParts(e, y, doy, shift)
  {
    EraOf(e, YearOffset(y) + doy);
    DayOfEraParts(e, y, doy);
  }

  lemma {:induction false} DayOfEraParts(e: int, y: int, doy: int)
    requires YearOfEra(YearOffset(y) + doy) == y
    ensures FromDayOfEra(e, YearOffset(y) + doy) == FromDayOfYear(e, y, doy)
  {}

  lemma {:induction false} EraOf(e: int, doe: int)
    requires 0 <= doe < 146097
    ensures CivilOf(146097 * e + doe - 719468) == FromDayOfEra(e, doe)
  {
    assert (146097 * e + doe) / 146097 == e;
  }

  /** The day number of a date given by its parts. */
  lemma {:induction false} UnixDaysOfParts(e: int, y: int, doy: int, shift: int)
    requires 0 <= y < 400 && 0 <= shift <= 11 && MonthStart(shift) <= doy < MonthStart(shift + 1)
    ensures UnixDays(FromParts(e, y, doy, shift)) == 146097 * e + (YearOffset(y) + doy) - 719468
  {
    var d := FromParts(e, y, doy, shift);
    assert MarchYear(d) == 400 * e + y && DayOfYear(d) == doy;
    YearStartParts(e, y);
    UnixDaysParts(d);
  }

  lemma {:induction false} EraParts(y: int, doy: int)
    requires 0 <= y < 400 && 0 <= doy <= 365
    requires doy == 365 ==> y % 4 == 3 && (y % 100 / 4 < 24 || y / 100 == 3)
    ensures 0 <= YearOffset(y) + doy < 146097 && YearOfEra(YearOffset(y) + doy) == y
  {
    var c, k, s := y / 100, y % 100 / 4, y % 4;
    assert y == 100 * c + 4 * k + s;
    EraYear(c, k, s, doy);
  }

  /** Every valid date is given by its parts. */
  lemma {:induction false} DateHasParts(d: Civil) returns (e: int, y: int, doy: int, shift: int)
    requires ValidCivil(d)
    ensures 0 <= y < 400 && 0 <= shift <= 11 && MonthStart(shift) <= doy < MonthStart(shift + 1)
    ensures 0 <= doy <= 365 && (doy == 365 ==> y % 4 == 3 && (y % 100 / 4 < 24 || y / 100 == 3))
    ensures d == FromParts(e, y, doy, shift)
  {
    var a := MarchYear(d);
    e, y, doy, shift := a / 400, a % 400, DayOfYear(d), Shift(d);
    MonthStarts(d);
    LongYear(e, y);
  }

  /** Every valid date is recovered from its day number. */
  lemma {:induction false} CivilOfUnixDays(d: Civil)
    requires ValidCivil(d)
    ensures CivilOf(UnixDays(d)) == d
  {
    var e, y, doy, shift := DateHasParts(d);
    UnixDaysOfParts(e, y, doy, shift);
    EraParts(y, doy);
    MonthOfDay(shift, doy);
    CivilOfParts(e, y, doy, shift);
  }

  /** A day of an era, by its century, four-year group, year and day. */
  lemma {:induction false} SplitDay(doe: int) returns (y: int, doy: int)
    requires 0 <= doe < 146097
    ensures 0 <= y < 400 && 0 <= doy <= 365
    ensures doe == YearOffset(y) + doy && YearOfEra(doe) == y
    ensures doy == 365 ==> y % 4 == 3 && (y % 100 / 4 < 24 || y / 100 == 3)
  {
    var c := if doe == 146096 then 3 else doe / 36524;
    var t := doe - 36524 * c;
    assert 0 <= c <= 3 && 0 <= t <= 36524 && (t == 36524 ==> c == 3);
    var k := t / 1461;
    var u := t - 1461 * k;
    var s := if u == 1460 then 3 else u / 365;
    doy := u - 365 * s;
    EraYear(c, k, s, doy);
    y := 100 * c + 4 * k + s;
  }

  /** Every integer is the day number of exactly the valid date it is mapped to. */
  lemma {:induction false} UnixDaysOfCivil(z: int)
    ensures ValidCivil(CivilOf(z))
    ensures UnixDays(CivilOf(z)) == z
  {
    var e := (z + 719468) / 146097;
    var y, doy := SplitDay(z + 719468 - 146097 * e);
    var shift := (5 * doy + 2) / 153;
    DayHasMonth(doy);
    UnixDaysOfParts(e, y, doy, shift);
    CivilOfParts(e, y, doy, shift);
    PartsAreValid(e, y, doy, shift);
  }

  lemma {:induction false} PartsAreValid(e: int, y: int, doy: int, shift: int)
    requires 0 <= y < 400 && 0 <= shift <= 11 && MonthStart(shift) <= doy < MonthStart(shift + 1)
    requires 0 <= doy <= 365 && (doy == 365 ==> y % 4 == 3 && (y % 100 / 4 < 24 || y / 100 == 3))
    ensures ValidCivil(FromParts(e, y, doy, shift))
  {
    LongYear(e, y);
    ValidFromParts(FromParts(e, y, doy, shift), 400 * e + y, doy);
  }

  lemma {:induction false} ValidFromParts(d: Civil, a: int, doy: int)
    requires 0 <= doy < YearLength(a)
    requires 1 <= d.month <= 12 && MarchYear(d) == a && DayOfYear(d) == doy
    requires MonthStart(Shift(d)) <= doy < MonthStart(Shift(d) + 1)
    ensures ValidCivil(d)
  {}

  /** 2000 has a 29 February, and 1900 has none. */
  lemma {:induction false} LeapDay2000()
    ensures UnixDays(Civil(2000, 2, 29)) == 11016 && NextDay(Civil(2000, 2, 29)) == Civil(2000, 3, 1)
  {
    assert 1999 / 400 == 4 && 399 / 4 == 99 && 399 / 100 == 3 && (153 * 11 + 2) / 5 == 337;
  }

  lemma {:induction false} NoLeapDay1900()
    ensures UnixDays(Civil(1900, 2, 28)) == -25509 && NextDay(Civil(1900, 2, 28)) == Civil(1900, 3, 1)
  {
    assert 1899 / 400 == 4 && 299 / 4 == 74 && 299 / 100 == 2 && (153 * 11 + 2) / 5 == 337;
  }

  /** The epoch. */
  lemma {:induction false} EpochIsDayZero()
    ensures UnixDays(Civil(1970, 1, 1)) == 0
  {}
}
