/** The proleptic Gregorian calendar, and the branch-free conversion from a day number to a civil date. */
module CivilDate {

  // ----- The calendar, independently of the algorithm -----

  datatype Date = Date(year: int, month: int, day: int)

  const EPOCH := Date(1970, 1, 1)

  predicate IsLeap(y: int) {
    y % 4 == 0 && (y % 100 != 0 || y % 400 == 0)
  }

  function DaysInMonth(y: int, m: int): int
    requires 1 <= m <= 12
  {
    if m == 2 then (if IsLeap(y) then 29 else 28)
    else if m == 4 || m == 6 || m == 9 || m == 11 then 30
    else 31
  }

  predicate Valid(d: Date) {
    1 <= d.month <= 12 && 1 <= d.day <= DaysInMonth(d.year, d.month)
  }

  function NextDay(d: Date): Date
    requires Valid(d)
  {
    if d.day < DaysInMonth(d.year, d.month) then d.(day := d.day + 1)
    else if d.month < 12 then Date(d.year, d.month + 1, 1)
    else Date(d.year + 1, 1, 1)
  }

  function PreviousDay(d: Date): Date
    requires Valid(d)
  {
    if d.day > 1 then d.(day := d.day - 1)
    else if d.month > 1 then Date(d.year, d.month - 1, DaysInMonth(d.year, d.month - 1))
    else Date(d.year - 1, 12, 31)
  }

  /** The date `n` days after (or before) the epoch, found by leafing through the calendar. */
  ghost function Leaf(n: int): (d: Date)
    ensures Valid(d)
    decreases if n < 0 then -n else n
  {
    if n == 0 then EPOCH
    else if n > 0 then NextDay(Leaf(n - 1))
    else PreviousDay(Leaf(n + 1))
  }

  /** Leap days in the years up to and including `y`, counted from year 1. */
  function LeapDaysThrough(y: int): int {
    y / 4 - y / 100 + y / 400
  }

  function MonthTable(m: int): int
    requires 1 <= m <= 12
  {
    [0, 31, 59, 90, 120, 151, 181, 212, 243, 273, 304, 334][m - 1]
  }

  function DaysBeforeMonth(y: int, m: int): int
    requires 1 <= m <= 12
  {
    if m > 2 && IsLeap(y) then MonthTable(m) + 1 else MonthTable(m)
  }

  function DaysBeforeYear(y: int): int {
    365 * (y - 1970) + LeapDaysThrough(y - 1) - LeapDaysThrough(1969)
  }

  /** Days from the epoch to `d`, by counting whole years, whole months and days. */
  function DayNumber(d: Date): int
    requires 1 <= d.month <= 12
  {
    DaysBeforeYear(d.year) + DaysBeforeMonth(d.year, d.month) + d.day - 1
  }

  // ----- The algorithm -----

  /** Integer division as the source's language has it: truncated toward zero. */
  function TruncDiv(a: int, b: int): int
    requires b > 0
  {
    if a >= 0 then a / b else -((-a) / b)
  }

  /** Unsigned intermediates are `nat`s, so well-formedness says that no subtraction underflows. */
  datatype EraDate = EraDate(yoe: nat, doy: nat, mp: nat, day: nat, month: nat)

  function YearOfEra(doe: nat): int {
    (doe - doe / 1460 + doe / 36_524 - doe / 146_096) / 365
  }

  function DaysBeforeYearOfEra(yoe: int): int {
    365 * yoe + yoe / 4 - yoe / 100
  }

  /** The year of the era brackets the day of the era, and is in the commented range. */
  lemma {:induction false} YearOfEraBrackets(doe: nat)
    requires doe <= 146_096
    ensures 0 <= doe - doe / 1460 + doe / 36_524 - doe / 146_096
    ensures 0 <= YearOfEra(doe) <= 399
    ensures DaysBeforeYearOfEra(YearOfEra(doe)) <= doe
    ensures YearOfEra(doe) < 399 ==> doe < DaysBeforeYearOfEra(YearOfEra(doe) + 1)
    ensures YearOfEra(doe) == 399 ==> doe <= DaysBeforeYearOfEra(399) + 365
  {
    var c := if doe == 146_096 then 3 else doe / 36_524;
    var r := doe - 36_524 * c;
    var q := r / 1461;
    var s := r - 1461 * q;
    var t := if s == 1460 then 3 else s / 365;
    CenturySplit(doe, c, r, q, s, t);
    YearOfEraSplit(c, q, t);
    hide YearOfEra;
  }

  lemma {:induction false} YearOfEraSplit(c: nat, q: nat, t: nat)
    requires c <= 3 && q <= 24 && t <= 3
    ensures DaysBeforeYearOfEra(100 * c + 4 * q + t) == 36_524 * c + 1461 * q + 365 * t
    ensures t < 3 ==> DaysBeforeYearOfEra(100 * c + 4 * q + t + 1) == 36_524 * c + 1461 * q + 365 * t + 365
    ensures t == 3 && q < 24 ==> DaysBeforeYearOfEra(100 * c + 4 * q + t + 1) == 36_524 * c + 1461 * (q + 1)
    ensures t == 3 && q == 24 ==> DaysBeforeYearOfEra(100 * c + 4 * q + t + 1) == 36_524 * (c + 1)
  {
  }

  /** Splitting the day of the era by centuries, leap cycles and years reads off its year. */
  lemma {:induction false} CenturySplit(doe: nat, c: nat, r: nat, q: nat, s: nat, t: nat)
    requires doe == 36_524 * c + r && c <= 3
    requires r < 36_524 || (c == 3 && r == 36_524)
    requires r == 1461 * q + s && s < 1461
    requires t == if s == 1460 then 3 else s / 365
    ensures q <= 24 && t <= 3
    ensures 0 <= doe - doe / 1460 + doe / 36_524 - doe / 146_096
    ensures YearOfEra(doe) == 100 * c + 4 * q + t
    ensures q == 24 && c < 3 ==> s < 1460
  {
    var e := if 24 * c + q + s >= 1460 then 1 else 0;
    assert doe / 1460 == 25 * c + q + e;
    var f := if doe == 146_096 then 1 else 0;
    assert doe / 146_096 == f;
    assert doe / 36_524 == if f == 1 then 4 else c;
    assert 365 * t <= s - e < 365 * t + 365;
  }

  /** Month and day within a March-based year: the commented ranges, and the count they stand for. */
  lemma {:induction false} MonthOfYear(doy: nat, mp: int, d: int, m: int)
    requires doy <= 365
    requires mp == (5 * doy + 2) / 153 && d == doy - (153 * mp + 2) / 5 + 1
    requires m == if mp < 10 then mp + 3 else mp - 9
    ensures 0 <= mp <= 11 && 1 <= d <= 31 && 1 <= m <= 12
    ensures m > 2 ==> MonthTable(m) + d - 1 == doy + 59
    ensures m > 2 ==> d <= (if m == 4 || m == 6 || m == 9 || m == 11 then 30 else 31)
    ensures m <= 2 ==> MonthTable(m) + d - 1 == doy - 306
    ensures m == 2 ==> d <= 29 && (d == 29 <==> doy == 365)
  {
  }

  /** A year of the era is one day longer when the calendar year that holds its February is leap. */
  lemma {:induction false} LengthOfYearOfEra(doe: nat)
    requires doe <= 146_096
    ensures var doy := doe - DaysBeforeYearOfEra(YearOfEra(doe)); 0 <= doy <= 365
    ensures doe - DaysBeforeYearOfEra(YearOfEra(doe)) == 365 ==> IsLeap(YearOfEra(doe) + 1)
  {
    YearOfEraBrackets(doe);
    QuotientsStep(YearOfEra(doe) + 1);
  }

  function SplitEra(doe: nat): EraDate
    requires doe <= 146_096
  {
    YearOfEraBrackets(doe);
    LengthOfYearOfEra(doe);
    var yoe: nat := (doe - doe / 1460 + doe / 36_524 - doe / 146_096) / 365;
    var doy: nat := doe - (365 * yoe + yoe / 4 - yoe / 100);
    var mp: nat := (5 * doy + 2) / 153;
    var d: nat := doy - (153 * mp + 2) / 5 + 1;
    var m: nat := if mp < 10 then mp + 3 else mp - 9;
    EraDate(yoe, doy, mp, d, m)
  }

  function EraOf(z: int): int {
    TruncDiv(if z >= 0 then z else z - 146_096, 146_097)
  }

  lemma {:induction false} EraOfIsFloor(z: int)
    ensures 0 <= z - EraOf(z) * 146_097 <= 146_096
  {
  }

  /** `civil_from_days` before its year is narrowed to 32 bits. */
  function WideCivilFromDays(days: int): Date {
    var z := days + 719_468;
    var era := EraOf(z);
    EraOfIsFloor(z);
    var e := SplitEra(z - era * 146_097);
    var y := e.yoe + era * 400;
    Date(if e.month <= 2 then y + 1 else y, e.month, e.day)
  }

  /** A signed 64-bit value narrowed to 32 bits by dropping its high half. */
  function WrapI32(y: int): int {
    (y + 0x8000_0000) % 0x1_0000_0000 - 0x8000_0000
  }

  function CivilFromDays(days: int): Date {
    var d := WideCivilFromDays(days);
    d.(year := WrapI32(d.year))
  }

  // ----- What the algorithm computes -----

  lemma {:induction false} QuotientsShift(y: int, era: int)
    ensures (y + 400 * era) / 4 == y / 4 + 100 * era
    ensures (y + 400 * era) / 100 == y / 100 + 4 * era
    ensures (y + 400 * era) / 400 == y / 400 + era
  {
  }

  lemma {:induction false} QuotientsStep(y: int)
    ensures (y - 1) / 4 == y / 4 - (if y % 4 == 0 then 1 else 0)
    ensures (y - 1) / 100 == y / 100 - (if y % 100 == 0 then 1 else 0)
    ensures (y - 1) / 400 == y / 400 - (if y % 400 == 0 then 1 else 0)
    ensures y % 400 == 0 ==> y % 100 == 0
    ensures y % 100 == 0 ==> y % 4 == 0
  {
  }

  /** Shifting by whole eras shifts the count of leap days and keeps leapness. */
  lemma {:induction false} LeapDaysShift(y: int, era: int)
    ensures LeapDaysThrough(y + 400 * era) == LeapDaysThrough(y) + 97 * era
    ensures IsLeap(y + 400 * era) == IsLeap(y)
  {
    QuotientsShift(y, era);
    RemaindersShift(y, era);
  }

  lemma {:induction false} RemaindersShift(y: int, era: int)
    ensures (y + 400 * era) % 4 == y % 4
    ensures (y + 400 * era) % 100 == y % 100
    ensures (y + 400 * era) % 400 == y % 400
  {
    QuotientsShift(y, era);
  }

  lemma {:induction false} LeapDaysStep(y: int)
    ensures LeapDaysThrough(y) == LeapDaysThrough(y - 1) + (if IsLeap(y) then 1 else 0)
  {
    QuotientsStep(y);
  }

  /** One day of an era, split: the commented ranges and what the pieces count. */
  lemma {:induction false} SplitEraCounts(doe: nat)
    requires doe <= 146_096
    ensures var e := SplitEra(doe);
      && e.yoe <= 399 && e.doy <= 365 && e.mp <= 11 && 1 <= e.day <= 31 && 1 <= e.month <= 12
      && doe == 365 * e.yoe + e.yoe / 4 - e.yoe / 100 + e.doy
      && (e.doy == 365 ==> IsLeap(e.yoe + 1))
      && (e.month > 2 ==> MonthTable(e.month) + e.day - 1 == e.doy + 59
                          && e.day <= (if e.month == 4 || e.month == 6 || e.month == 9 || e.month == 11
                                       then 30 else 31))
      && (e.month <= 2 ==> MonthTable(e.month) + e.day - 1 == e.doy - 306)
      && (e.month == 2 ==> e.day <= 29 && (e.day == 29 <==> e.doy == 365))
  {
    hide IsLeap, MonthTable;
    var e := SplitEra(doe);
    LengthOfYearOfEra(doe);
    YearOfEraBrackets(doe);
    MonthOfYear(e.doy, e.mp, e.day, e.month);
  }

  lemma {:induction false} LeapDaysInEra(yoe: nat, era: int)
    requires yoe <= 399
    ensures LeapDaysThrough(yoe + 400 * era) == yoe / 4 - yoe / 100 + 97 * era
  {
    QuotientsShift(yoe, era);
  }

  lemma {:induction false} DaysBeforeYearUnfolded(y: int)
    ensures DaysBeforeYear(y) == 365 * (y - 1970) + LeapDaysThrough(y) - 477 - (if IsLeap(y) then 1 else 0)
    ensures DaysBeforeYear(y + 1) == 365 * (y - 1969) + LeapDaysThrough(y) - 477
  {
    LeapDaysStep(y);
    assert LeapDaysThrough(1969) == 477;
    hide LeapDaysThrough, IsLeap;
  }

  /** The date read off one day of one era is real, and counts up to exactly that day. */
  lemma {:induction false} EraDateCounts(doe: nat, era: int)
    requires doe <= 146_096
    ensures var e := SplitEra(doe);
      var y := e.yoe + 400 * era;
      var d := Date(if e.month <= 2 then y + 1 else y, e.month, e.day);
      Valid(d) && DayNumber(d) == era * 146_097 + doe - 719_468
  {
    hide SplitEra, LeapDaysThrough, IsLeap, MonthTable, DaysBeforeYear;
    var e := SplitEra(doe);
    var y := e.yoe + 400 * era;
    SplitEraCounts(doe);
    LeapDaysInEra(e.yoe, era);
    LeapDaysShift(e.yoe + 1, era);
    DaysBeforeYearUnfolded(y);
  }

  /** Every day number is sent to a real date, and counting up to that date gives the day number back. */
  lemma {:induction false} ConversionIsSound(days: int)
    ensures Valid(WideCivilFromDays(days))
    ensures DayNumber(WideCivilFromDays(days)) == days
  {
    hide EraOf, SplitEra, Valid, DayNumber;
    var z := days + 719_468;
    EraOfIsFloor(z);
    EraDateCounts(z - EraOf(z) * 146_097, EraOf(z));
  }

  lemma {:induction false} YearSpan(d: Date)
    requires Valid(d)
    ensures DaysBeforeYear(d.year) <= DayNumber(d) < DaysBeforeYear(d.year + 1)
  {
    hide LeapDaysThrough, IsLeap, DaysBeforeYear;
    DaysBeforeYearUnfolded(d.year);
  }

  lemma {:induction false} YearsAscend(y: int, y': int)
    requires y < y'
    ensures DaysBeforeYear(y) < DaysBeforeYear(y')
  {
  }

  lemma {:induction false} MonthsAscend(y: int, m: int, m': int)
    requires 1 <= m < m' <= 12
    ensures DaysBeforeMonth(y, m) + DaysInMonth(y, m) <= DaysBeforeMonth(y, m')
  {
    hide IsLeap;
  }

  lemma {:induction false} DayNumberInjective(a: Date, b: Date)
    requires Valid(a) && Valid(b)
    ensures DayNumber(a) == DayNumber(b) ==> a == b
  {
    SameYear(a, b);
    hide DaysBeforeYear, DaysBeforeMonth, DaysInMonth;
    if a.month < b.month {
      MonthsAscend(a.year, a.month, b.month);
    } else if b.month < a.month {
      MonthsAscend(a.year, b.month, a.month);
    }
  }

  lemma {:induction false} SameYear(a: Date, b: Date)
    requires Valid(a) && Valid(b)
    ensures DayNumber(a) == DayNumber(b) ==> a.year == b.year
  {
    hide DayNumber, DaysBeforeYear, DaysInMonth;
    YearSpan(a);
    YearSpan(b);
    if a.year < b.year && a.year + 1 != b.year {
      YearsAscend(a.year + 1, b.year);
    } else if b.year < a.year && b.year + 1 != a.year {
      YearsAscend(b.year + 1, a.year);
    }
  }

  /** The conversion is onto the calendar: every real date is reached from its own day number. */
  lemma {:induction false} ConversionIsComplete(d: Date)
    requires Valid(d)
    ensures WideCivilFromDays(DayNumber(d)) == d
  {
    hide WideCivilFromDays, DayNumber, DaysInMonth;
    ConversionIsSound(DayNumber(d));
    DayNumberInjective(WideCivilFromDays(DayNumber(d)), d);
  }

  lemma {:induction false} NextDayCounts(d: Date)
    requires Valid(d)
    ensures Valid(NextDay(d)) && DayNumber(NextDay(d)) == DayNumber(d) + 1
  {
    hide LeapDaysThrough, IsLeap, DaysBeforeYear;
    DaysBeforeYearUnfolded(d.year);
  }

  lemma {:induction false} PreviousDayUndoes(d: Date)
    requires Valid(d)
    ensures Valid(PreviousDay(d)) && NextDay(PreviousDay(d)) == d
  {
  }

  /** Consecutive day numbers are consecutive calendar days, over leap days, centuries and eras alike. */
  lemma {:induction false} ConversionStepsByOneDay(days: int)
    ensures Valid(WideCivilFromDays(days))
    ensures WideCivilFromDays(days + 1) == NextDay(WideCivilFromDays(days))
  {
    hide *;
    ConversionIsSound(days);
    NextDayCounts(WideCivilFromDays(days));
    ConversionIsComplete(NextDay(WideCivilFromDays(days)));
  }

  lemma {:induction false} ConversionAtEpoch()
    ensures WideCivilFromDays(0) == EPOCH
  {
    hide WideCivilFromDays;
    assert DayNumber(EPOCH) == 0;
    ConversionIsComplete(EPOCH);
  }

  /** The arithmetic agrees with leafing through the calendar day by day from the epoch. */
  lemma {:induction false} ConversionLeafsTheCalendar(days: int)
    ensures WideCivilFromDays(days) == Leaf(days)
    decreases if days < 0 then -days else days
  {
    hide WideCivilFromDays, NextDay, PreviousDay, Valid, DayNumber;
    if days == 0 {
      ConversionAtEpoch();
    } else if days > 0 {
      ConversionLeafsTheCalendar(days - 1);
      ConversionStepsByOneDay(days - 1);
    } else {
      ConversionLeafsTheCalendar(days + 1);
      var d := Leaf(days + 1);
      PreviousDayUndoes(d);
      NextDayCounts(PreviousDay(d));
      ConversionIsSound(days + 1);
      ConversionIsComplete(PreviousDay(d));
    }
  }

  // ----- Machine integers -----

  predicate IsI64(n: int) { -0x8000_0000_0000_0000 <= n < 0x8000_0000_0000_0000 }
  predicate IsI32(n: int) { -0x8000_0000 <= n < 0x8000_0000 }

  /** First and one-past-last day whose year is a signed 32-bit number. */
  const FIRST_I32_DAY := DaysBeforeYear(-0x8000_0000)
  const END_I32_DAY := DaysBeforeYear(0x8000_0000)

  lemma {:induction false} YearInRange(d: Date)
    requires Valid(d)
    ensures IsI32(d.year) <==> FIRST_I32_DAY <= DayNumber(d) < END_I32_DAY
  {
    hide DayNumber, DaysBeforeYear, Valid;
    YearSpan(d);
    if d.year < -0x8000_0000 {
      if d.year + 1 != -0x8000_0000 { YearsAscend(d.year + 1, -0x8000_0000); }
    } else if -0x8000_0000 < d.year {
      YearsAscend(-0x8000_0000, d.year);
    }
    if d.year < 0x7fff_ffff {
      YearsAscend(d.year + 1, 0x8000_0000);
    } else if 0x8000_0000 < d.year {
      YearsAscend(0x8000_0000, d.year);
    }
  }

  /**
   * The source's comment promises every 64-bit day number, but the year is narrowed to 32 bits on return:
   * the result is the calendar date exactly for the days of the 32-bit years, and for no other day.
   */
  lemma {:induction false} ConversionExactRange(days: int)
    ensures CivilFromDays(days) == Leaf(days) <==> FIRST_I32_DAY <= days < END_I32_DAY
  {
    hide WideCivilFromDays, Leaf, DayNumber, Valid, DaysBeforeYear, DaysInMonth;
    ConversionLeafsTheCalendar(days);
    ConversionIsSound(days);
    YearInRange(WideCivilFromDays(days));
  }

  lemma {:induction false} FirstOfYear(y: int)
    ensures DayNumber(Date(y, 1, 1)) == DaysBeforeYear(y)
  {
  }

  /** A day inside the 64-bit range that the conversion gets wrong: its year 2^31 reads back as -2^31. */
  lemma {:induction false} ConversionWrapsInsideI64()
    ensures IsI64(END_I32_DAY)
    ensures Leaf(END_I32_DAY) == Date(0x8000_0000, 1, 1)
    ensures CivilFromDays(END_I32_DAY) == Date(-0x8000_0000, 1, 1)
  {
    hide WideCivilFromDays, Leaf, DayNumber;
    var d := Date(0x8000_0000, 1, 1);
    FirstOfYear(0x8000_0000);
    ConversionLeafsTheCalendar(END_I32_DAY);
    ConversionIsComplete(d);
  }

  /** All signed intermediates fit in 64 bits exactly when the opening addition does. */
  lemma {:induction false} ConversionOverflow(days: int)
    requires IsI64(days)
    ensures var z := days + 719_468;
      var era := EraOf(z);
      (days <= 0x7fff_ffff_ffff_ffff - 719_468)
      <==> (IsI64(z) && IsI64(z - 146_096) && IsI64(era * 146_097) && IsI64(z - era * 146_097)
            && IsI64(era * 400 + 400))
  {
  }
}
