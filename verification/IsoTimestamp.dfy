/** The capture header's UTC timestamp: printed by hand, and read back by an independent reader. */
module IsoTimestamp {
  import opened Prelude
  import opened CivilDate
  import opened Decimal

  // ----- Decimal formatting -----

  function ZeroPad(s: string, width: nat): string {
    if |s| < width then "0" + ZeroPad(s, width - 1) else s
  }

  /** `{:0w}` of an unsigned value. */
  function PadNat(n: nat, width: nat): string {
    ZeroPad(Digits(n), width)
  }

  /** `{:0w}` of a signed value: the sign counts toward the width. */
  function PadInt(n: int, width: nat): string
    requires width > 0
  {
    if n < 0 then "-" + PadNat(-n, width - 1) else PadNat(n, width)
  }

  // ----- The printer -----

  /** Whole seconds of a `SystemTime`, given in nanoseconds since the epoch: truncated toward the epoch. */
  function EpochSeconds(nanos: int): int {
    TruncDiv(nanos, 1_000_000_000)
  }

  function FormatSeconds(secs: int): string {
    var days := secs / 86_400;
    var timeOfDay := secs % 86_400;
    var d := CivilFromDays(days);
    DateFieldsPrintable(days);
    PadInt(d.year, 4) + "-" + PadNat(d.month, 2) + "-" + PadNat(d.day, 2) + "T"
    + PadNat(timeOfDay / 3600, 2) + ":" + PadNat(timeOfDay % 3600 / 60, 2) + ":" + PadNat(timeOfDay % 60, 2) + "Z"
  }

  function FormatUtcIso8601(nanos: int): string {
    FormatSeconds(EpochSeconds(nanos))
  }

  lemma {:induction false} DateFieldsPrintable(days: int)
    ensures 1 <= CivilFromDays(days).month <= 12
    ensures 1 <= CivilFromDays(days).day <= 31
  {
    hide WideCivilFromDays;
    ConversionIsSound(days);
  }

  // ----- An independent reader -----

  function ReadInt(s: string): Option<int> {
    var negative := s != [] && s[0] == '-';
    var magnitude := ReadNat(if negative then s[1..] else s);
    if magnitude.None? then None
    else
      var n: int := magnitude.value;
      Some(if negative then -n else n)
  }

  datatype Stamp = Stamp(year: int, month: nat, day: nat, hour: nat, minute: nat, second: nat)

  /** `Y-MM-DDTHH:MM:SSZ`: the year is whatever precedes the sixteen fixed characters. */
  function ReadStamp(s: string): Option<Stamp> {
    var k := |s| - 16;
    if k < 1 || s[k] != '-' || s[k + 3] != '-' || s[k + 6] != 'T' || s[k + 9] != ':' || s[k + 12] != ':'
       || s[k + 15] != 'Z'
    then None
    else match (ReadInt(s[..k]), ReadNat(s[k + 1..k + 3]), ReadNat(s[k + 4..k + 6]),
                ReadNat(s[k + 7..k + 9]), ReadNat(s[k + 10..k + 12]), ReadNat(s[k + 13..k + 15]))
      case (Some(y), Some(mo), Some(d), Some(h), Some(mi), Some(sec)) => Some(Stamp(y, mo, d, h, mi, sec))
      case _ => None
  }

  /** Seconds since the epoch that a stamp denotes. */
  function SecondsOf(t: Stamp): int
    requires 1 <= t.month <= 12
  {
    86_400 * DayNumber(Date(t.year, t.month, t.day)) + 3600 * t.hour + 60 * t.minute + t.second
  }

  function ReadSeconds(s: string): Option<int> {
    match ReadStamp(s)
    case None => None
    case Some(t) => if 1 <= t.month <= 12 then Some(SecondsOf(t)) else None
  }

  // ----- Digits round-trip -----

  lemma {:induction false} LeadingZero(s: string)
    requires ReadNat(s).Some?
    ensures ReadNat("0" + s) == ReadNat(s)
  {
    var t := "0" + s;
    assert t[|t| - 1] == s[|s| - 1];
    if |s| == 1 {
      assert t[..|t| - 1] == "0";
      assert ReadNat("0") == Some(0);
    } else {
      assert t[..|t| - 1] == "0" + s[..|s| - 1];
      LeadingZero(s[..|s| - 1]);
    }
  }

  lemma {:induction false} ZeroPadReadsBack(s: string, width: nat)
    requires ReadNat(s).Some?
    requires forall i :: 0 <= i < |s| ==> IsDigit(s[i])
    ensures ReadNat(ZeroPad(s, width)) == ReadNat(s)
    ensures |ZeroPad(s, width)| == Max(|s|, width)
    ensures forall i :: 0 <= i < |ZeroPad(s, width)| ==> IsDigit(ZeroPad(s, width)[i])
  {
    if |s| < width {
      ZeroPadReadsBack(s, width - 1);
      LeadingZero(ZeroPad(s, width - 1));
    }
  }

  lemma {:induction false} DigitCount(n: nat, k: nat)
    requires k >= 1
    ensures |Digits(n)| <= k <==> n < Pow10(k)
  {
    if k == 1 {
      assert n >= 10 ==> |Digits(n / 10)| >= 1;
    } else if n >= 10 {
      DigitCount(n / 10, k - 1);
      Pow10Step(n, k);
    } else {
      Pow10AtLeast(k);
    }
  }

  function Pow10(k: nat): nat { if k == 0 then 1 else 10 * Pow10(k - 1) }

  lemma {:induction false} Pow10AtLeast(k: nat)
    requires k >= 1
    ensures Pow10(k) >= 10
  {
    if k > 1 { Pow10AtLeast(k - 1); }
  }

  lemma {:induction false} Pow10Step(n: nat, k: nat)
    requires k >= 1
    ensures n / 10 < Pow10(k - 1) <==> n < Pow10(k)
  {
  }

  /** A padded field reads back, and has exactly its width when the value fits. */
  lemma {:induction false} PadNatReadsBack(n: nat, width: nat)
    requires width >= 1
    ensures ReadNat(PadNat(n, width)) == Some(n)
    ensures |PadNat(n, width)| >= width
    ensures |PadNat(n, width)| == width <==> n < Pow10(width)
    ensures forall i :: 0 <= i < |PadNat(n, width)| ==> IsDigit(PadNat(n, width)[i])
  {
    DigitsReadBack(n);
    ZeroPadReadsBack(Digits(n), width);
    DigitCount(n, width);
  }

  lemma {:induction false} PadIntReadsBack(n: int, width: nat)
    requires width >= 2
    ensures ReadInt(PadInt(n, width)) == Some(n)
    ensures |PadInt(n, width)| >= width
    ensures 0 <= n < Pow10(width) <==> |PadInt(n, width)| == width && IsDigit(PadInt(n, width)[0])
  {
    hide PadNat, ReadNat, Pow10;
    if n < 0 {
      PadNatReadsBack(-n, width - 1);
      assert PadInt(n, width)[1..] == PadNat(-n, width - 1);
    } else {
      PadNatReadsBack(n, width);
    }
  }

  // ----- The printed stamp -----

  lemma {:induction false} StampLayout(y: string, mo: string, d: string, h: string, mi: string, sec: string, s: string)
    requires |mo| == 2 && |d| == 2 && |h| == 2 && |mi| == 2 && |sec| == 2
    requires s == y + "-" + mo + "-" + d + "T" + h + ":" + mi + ":" + sec + "Z"
    ensures |s| == |y| + 16
    ensures var k := |y|;
      && s[..k] == y && s[k] == '-' && s[k + 1..k + 3] == mo && s[k + 3] == '-' && s[k + 4..k + 6] == d
      && s[k + 6] == 'T'
      && s[k + 7..k + 9] == h && s[k + 9] == ':' && s[k + 10..k + 12] == mi && s[k + 12] == ':'
      && s[k + 13..k + 15] == sec && s[k + 15] == 'Z'
  {
  }

  /** Every stamp printed is read back field by field. */
  lemma {:induction false} StampReadsBack(secs: int)
    ensures var date := CivilFromDays(secs / 86_400);
      && date.month >= 0 && date.day >= 0
      && ReadStamp(FormatSeconds(secs))
         == Some(Stamp(date.year, date.month, date.day, secs % 86_400 / 3600, secs % 86_400 % 3600 / 60,
                       secs % 86_400 % 60))
    ensures |FormatSeconds(secs)| == |PadInt(CivilFromDays(secs / 86_400).year, 4)| + 16
    ensures FormatSeconds(secs)[0] == PadInt(CivilFromDays(secs / 86_400).year, 4)[0]
  {
    hide CivilFromDays, PadNat, PadInt, ReadNat, ReadInt;
    var date := CivilFromDays(secs / 86_400);
    DateFieldsPrintable(secs / 86_400);
    var tod := secs % 86_400;
    assert Pow10(2) == 100;
    PadIntReadsBack(date.year, 4);
    PadNatReadsBack(date.month, 2);
    PadNatReadsBack(date.day, 2);
    PadNatReadsBack(tod / 3600, 2);
    PadNatReadsBack(tod % 3600 / 60, 2);
    PadNatReadsBack(tod % 60, 2);
    StampLayout(PadInt(date.year, 4), PadNat(date.month, 2), PadNat(date.day, 2),
                PadNat(tod / 3600, 2), PadNat(tod % 3600 / 60, 2), PadNat(tod % 60, 2), FormatSeconds(secs));
  }

  lemma {:induction false} WrappedYearIsFar(y: int)
    requires !IsI32(y)
    ensures WrapI32(y) <= y - 0x1_0000_0000 || y + 0x1_0000_0000 <= WrapI32(y)
  {
  }

  lemma {:induction false} FarYearsFarDays(y: int, y': int, m: int, d: int)
    requires y + 0x1_0000_0000 <= y' && 1 <= m <= 12
    ensures DayNumber(Date(y, m, d)) + 1000 < DayNumber(Date(y', m, d))
  {
    hide IsLeap, MonthTable;
  }

  /** What a reader of the stamp learns: the second itself in range, and something days away out of range. */
  lemma {:induction false} StampDenotes(secs: int)
    ensures ReadSeconds(FormatSeconds(secs)).Some?
    ensures FIRST_I32_DAY <= secs / 86_400 < END_I32_DAY ==> ReadSeconds(FormatSeconds(secs)) == Some(secs)
    ensures !(FIRST_I32_DAY <= secs / 86_400 < END_I32_DAY) ==>
              var v := ReadSeconds(FormatSeconds(secs)).value; v + 86_400 < secs || secs + 86_400 < v
  {
    hide WideCivilFromDays, WrapI32, FormatSeconds, ReadStamp, DayNumber, IsLeap, DaysInMonth, DaysBeforeYear;
    var days := secs / 86_400;
    var wide := WideCivilFromDays(days);
    DateFieldsPrintable(days);
    StampReadsBack(secs);
    ConversionIsSound(days);
    YearInRange(wide);
    TimeOfDay(secs % 86_400);
    YearNarrowed(wide);
  }

  /** Narrowing the year keeps the day when the year fits, and moves it by years when it does not. */
  lemma {:induction false} YearNarrowed(d: Date)
    requires 1 <= d.month <= 12
    ensures IsI32(d.year) ==> WrapI32(d.year) == d.year
    ensures var v := DayNumber(d.(year := WrapI32(d.year)));
      !IsI32(d.year) ==> v + 1000 < DayNumber(d) || DayNumber(d) + 1000 < v
  {
    hide DayNumber;
    if !IsI32(d.year) {
      WrappedYearIsFar(d.year);
      if WrapI32(d.year) < d.year {
        FarYearsFarDays(WrapI32(d.year), d.year, d.month, d.day);
      } else {
        FarYearsFarDays(d.year, WrapI32(d.year), d.month, d.day);
      }
    }
  }

  lemma {:induction false} TimeOfDay(tod: nat)
    requires tod < 86_400
    ensures 3600 * (tod / 3600) + 60 * (tod % 3600 / 60) + tod % 60 == tod
  {
    assert tod % 3600 % 60 == tod % 60;
  }

  /**
   * Print/parse round trip for every second count, negative ones included: the stamp reads back as the
   * second that was printed exactly when that second falls in a signed 32-bit year.
   */
  lemma {:induction false} SecondsRoundTrip(secs: int)
    ensures ReadSeconds(FormatSeconds(secs)) == Some(secs)
            <==> 86_400 * FIRST_I32_DAY <= secs < 86_400 * END_I32_DAY
  {
    hide FormatSeconds, ReadSeconds, DaysBeforeYear;
    StampDenotes(secs);
  }

  /**
   * A `SystemTime` is rendered as the second that contains it exactly when it is in range and either not
   * before the epoch or on a whole second: earlier fractional times are rounded up toward the epoch.
   */
  lemma {:induction false} SystemTimeRoundTrip(nanos: int)
    ensures ReadSeconds(FormatUtcIso8601(nanos)) == Some(nanos / 1_000_000_000)
            <==> && 86_400 * FIRST_I32_DAY <= EpochSeconds(nanos) < 86_400 * END_I32_DAY
                 && (nanos >= 0 || nanos % 1_000_000_000 == 0)
  {
    hide FormatSeconds, ReadSeconds, DaysBeforeYear, EpochSeconds;
    StampDenotes(EpochSeconds(nanos));
    WholeSeconds(nanos);
  }

  lemma {:induction false} WholeSeconds(nanos: int)
    ensures nanos >= 0 || nanos % 1_000_000_000 == 0 ==> EpochSeconds(nanos) == nanos / 1_000_000_000
    ensures !(nanos >= 0 || nanos % 1_000_000_000 == 0) ==> EpochSeconds(nanos) == nanos / 1_000_000_000 + 1
  {
  }

  /** Half a second before the epoch prints as the epoch itself. */
  lemma {:induction false} PreEpochFractionRoundsUp()
    ensures -500_000_000 / 1_000_000_000 == -1
    ensures ReadSeconds(FormatUtcIso8601(-500_000_000)) == Some(0)
  {
    hide FormatSeconds, ReadSeconds, DaysBeforeYear;
    assert EpochSeconds(-500_000_000) == 0;
    EpochInRange();
    SecondsRoundTrip(0);
  }

  lemma {:induction false} EpochInRange()
    ensures FIRST_I32_DAY <= 0 < END_I32_DAY
  {
  }

  /** The twenty-character form of section 5.6 of RFC 3339 comes out exactly for the four-digit years. */
  lemma {:induction false} TwentyCharacters(secs: int)
    ensures 0 <= CivilFromDays(secs / 86_400).year <= 9999
            <==> |FormatSeconds(secs)| == 20 && IsDigit(FormatSeconds(secs)[0])
  {
    hide CivilFromDays, PadInt, FormatSeconds, ReadStamp;
    StampReadsBack(secs);
    var y := CivilFromDays(secs / 86_400).year;
    PadIntReadsBack(y, 4);
    assert Pow10(4) == 10_000;
  }
}
