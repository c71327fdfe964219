/** `Date.prototype.toISOString` as ECMAScript defines it: the time value
    (milliseconds since 1970-01-01T00:00:00Z, proleptic Gregorian calendar,
    UTC) written as `YYYY-MM-DDTHH:mm:ss.sssZ`, with a signed six-digit
    year outside 0..9999, and a RangeError beyond the time-value range. */
module IsoDate {
  import opened Wrappers
  import opened Urls

  const MsPerDay: nat := 86_400_000
  /** The largest magnitude a time value may have (`TimeClip`). */
  const MaxTimeValue: int := 8_640_000_000_000_000

  predicate IsLeap(y: int) {
    y % 4 == 0 && (y % 100 != 0 || y % 400 == 0)
  }

  function DaysInYear(y: int): nat {
    if IsLeap(y) then 366 else 365
  }

  function DaysInMonth(y: int, m: nat): nat
    requires 1 <= m <= 12
  {
    if m == 2 then (if IsLeap(y) then 29 else 28)
    else if m in {4, 6, 9, 11} then 30
    else 31
  }

  datatype Date = Date(year: int, month: nat, day: nat)

  predicate ValidDate(d: Date) {
    1 <= d.month <= 12 && 1 <= d.day <= DaysInMonth(d.year, d.month)
  }

  /** Days in months `m` to 12 of year `y`. */
  function DaysFromMonth(y: int, m: nat): nat
    requires 1 <= m <= 12
    decreases 12 - m
  {
    DaysInMonth(y, m) + if m == 12 then 0 else DaysFromMonth(y, m + 1)
  }

  /** Days in months 1 to `m - 1` of year `y`. */
  function DaysBeforeMonth(y: int, m: nat): nat
    requires 1 <= m <= 12
  {
    if m == 1 then 0 else DaysBeforeMonth(y, m - 1) + DaysInMonth(y, m - 1)
  }

  /** The days from 1970-01-01 to the first of January of year `y`. */
  function YearStart(y: int): int
    decreases if y < 1970 then 1970 - y else y - 1970
  {
    if y == 1970 then 0
    else if y > 1970 then YearStart(y - 1) + DaysInYear(y - 1)
    else YearStart(y + 1) - DaysInYear(y)
  }

  /** The day number of a date: days since 1970-01-01. */
  function DayNumber(d: Date): int
    requires ValidDate(d)
  {
    YearStart(d.year) + DaysBeforeMonth(d.year, d.month) + d.day - 1
  }

  /** The date that is day `k` (from zero) of year `y`, counting from month `m`. */
  function MonthDay(y: int, m: nat, k: nat): (d: Date)
    requires 1 <= m <= 12 && k < DaysFromMonth(y, m)
    ensures ValidDate(d) && d.year == y && m <= d.month
    decreases 12 - m
  {
    if k < DaysInMonth(y, m) then Date(y, m, k + 1)
    else MonthDay(y, m + 1, k - DaysInMonth(y, m))
  }

  /** The date that is `z` days after the first of January of year `y`
      (before it when `z` is negative). */
  function DateFrom(y: int, z: int): (d: Date)
    ensures ValidDate(d)
    decreases if z < 0 then 366 - z else z
  {
    if z < 0 then DateFrom(y - 1, z + DaysInYear(y - 1))
    else if z < DaysInYear(y) then
      YearDays(y);
      MonthDay(y, 1, z)
    else DateFrom(y + 1, z - DaysInYear(y))
  }

  /** `DateFromTime`: the calendar date of day number `z`. */
  function DateOfDay(z: int): (d: Date)
    ensures ValidDate(d)
  {
    DateFrom(1970, z)
  }

  lemma YearDays(y: int)
    ensures DaysFromMonth(y, 1) == DaysInYear(y)
  {
  }

  lemma YearStartStep(y: int)
    ensures YearStart(y + 1) == YearStart(y) + DaysInYear(y)
  {
  }

  lemma {:induction false} MonthDayNumber(y: int, m: nat, k: nat)
    requires 1 <= m <= 12 && k < DaysFromMonth(y, m)
    ensures var d := MonthDay(y, m, k);
      DaysBeforeMonth(y, d.month) + d.day - 1 == DaysBeforeMonth(y, m) + k
    decreases 12 - m
  {
    if k >= DaysInMonth(y, m) {
      MonthDayNumber(y, m + 1, k - DaysInMonth(y, m));
    }
  }

  lemma {:induction false} DateFromNumber(y: int, z: int)
    ensures DayNumber(DateFrom(y, z)) == YearStart(y) + z
    decreases if z < 0 then 366 - z else z
  {
    if z < 0 {
      DateFromNumber(y - 1, z + DaysInYear(y - 1));
      YearStartStep(y - 1);
    } else if z < DaysInYear(y) {
      YearDays(y);
      MonthDayNumber(y, 1, z);
    } else {
      DateFromNumber(y + 1, z - DaysInYear(y));
      YearStartStep(y);
    }
  }

  /** The calendar date of a day number names that day: converting back
      gives the same day number, so distinct days have distinct dates. */
  lemma DateOfDayRoundTrip(z: int)
    ensures DayNumber(DateOfDay(z)) == z
  {
    DateFromNumber(1970, z);
  }

  /** `n` in decimal, left-padded with zeros to `width` characters. */
  function Pad(n: nat, width: nat): (s: string)
    ensures |s| >= width
    ensures forall i :: 0 <= i < |s| ==> IsDigit(s[i])
  {
    var digits := NatToDecimal(n);
    if |digits| >= width then digits
    else Zeros(width - |digits|) + digits
  }

  function Pow10(n: nat): nat {
    if n == 0 then 1 else 10 * Pow10(n - 1)
  }

  lemma {:induction false} DecimalLength(n: nat, width: nat)
    requires 1 <= width && n < Pow10(width)
    ensures |NatToDecimal(n)| <= width
    decreases width
  {
    if n >= 10 {
      assert n / 10 < Pow10(width - 1);
      DecimalLength(n / 10, width - 1);
    }
  }

  function Zeros(k: nat): (s: string)
    ensures |s| == k && forall i :: 0 <= i < k ==> s[i] == '0'
  {
    seq(k, _ => '0')
  }

  lemma {:induction false} LeadingZeros(k: nat, s: string)
    requires forall i :: 0 <= i < |s| ==> IsDigit(s[i])
    ensures forall i :: 0 <= i < k + |s| ==> IsDigit((Zeros(k) + s)[i])
    ensures DigitsValue(Zeros(k) + s, 10) == DigitsValue(s, 10)
    decreases k + |s|
  {
    var t := Zeros(k) + s;
    if s == [] {
      if k > 0 {
        assert t[..|t| - 1] == Zeros(k - 1) + [];
        LeadingZeros(k - 1, []);
      }
    } else {
      assert t[..|t| - 1] == Zeros(k) + s[..|s| - 1];
      LeadingZeros(k, s[..|s| - 1]);
    }
  }

  /** A number below 10^width is padded to exactly `width` digits, and the
      digits read back as the number. */
  lemma PadExact(n: nat, width: nat)
    requires 1 <= width && n < Pow10(width)
    ensures |Pad(n, width)| == width
    ensures DigitsValue(Pad(n, width), 10) == n
  {
    DecimalLength(n, width);
    DecimalValue(n);
    var digits := NatToDecimal(n);
    if |digits| < width {
      LeadingZeros(width - |digits|, digits);
    }
  }

  /** The year as `toISOString` writes it. */
  function YearText(y: int): (s: string)
    ensures 0 <= y <= 9999 ==> |s| == 4
  {
    if 0 <= y <= 9999 then
      PadExact(y, 4);
      Pad(y, 4)
    else (if y < 0 then "-" else "+") + Pad(if y < 0 then -y else y, 6)
  }

  function DateText(d: Date): string {
    YearText(d.year) + "-" + Pad(d.month, 2) + "-" + Pad(d.day, 2)
  }

  /** `HH:mm:ss.sss` of the millisecond `ms` within its day. */
  function TimeText(ms: nat): string {
    Pad(ms / 3_600_000, 2) + ":" + Pad(ms / 60_000 % 60, 2) + ":" + Pad(ms / 1000 % 60, 2) + "." + Pad(ms % 1000, 3)
  }

  /** `new Date(t).toISOString()`. The day is `floor(t / msPerDay)` and the
      time within it the non-negative remainder; Dafny's `/` and `%` on a
      positive divisor are exactly these. */
  function ToIsoString(t: int): (r: Option<string>)
    ensures r.None? <==> t < -MaxTimeValue || MaxTimeValue < t
  {
    if t < -MaxTimeValue || MaxTimeValue < t then None
    else Some(DateText(DateOfDay(t / MsPerDay)) + "T" + TimeText(t % MsPerDay) + "Z")
  }

  /** Within years 0..9999 the first ten characters of the ISO string are
      the `YYYY-MM-DD` date of the instant. */
  lemma IsoDatePrefix(t: int)
    requires -MaxTimeValue <= t <= MaxTimeValue
    requires 0 <= DateOfDay(t / MsPerDay).year <= 9999
    ensures |DateText(DateOfDay(t / MsPerDay))| == 10
    ensures ToIsoString(t).value[..10] == DateText(DateOfDay(t / MsPerDay))
  {
    var d := DateOfDay(t / MsPerDay);
    PadExact(d.month, 2);
    PadExact(d.day, 2);
  }

  /** The layout of a date in years 0..9999: four year digits, two month
      digits and two day digits at fixed places. */
  lemma DateTextLayout(d: Date)
    requires ValidDate(d) && 0 <= d.year <= 9999
    ensures var s := DateText(d);
      && |s| == 10
      && s[..4] == Pad(d.year, 4)
      && s[5..7] == Pad(d.month, 2)
      && s[8..] == Pad(d.day, 2)
  {
    PadExact(d.month, 2);
    PadExact(d.day, 2);
  }

  /** The date text of a date in years 0..9999 determines the date. */
  lemma {:induction false} DateTextInjective(d1: Date, d2: Date)
    requires ValidDate(d1) && ValidDate(d2)
    requires 0 <= d1.year <= 9999 && 0 <= d2.year <= 9999
    requires DateText(d1) == DateText(d2)
    ensures d1 == d2
  {
    DateTextLayout(d1);
    DateTextLayout(d2);
    PadExact(d1.year, 4);
    PadExact(d2.year, 4);
    PadExact(d1.month, 2);
    PadExact(d2.month, 2);
    PadExact(d1.day, 2);
    PadExact(d2.day, 2);
  }
}
