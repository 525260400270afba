/**
 * The parts of chrono's `NaiveDate` and `NaiveTime` that the extraction code uses:
 * proleptic Gregorian dates, whole-minute times of day, the `HH:MM` time format and
 * the `Display` form of a date (`YYYY-MM-DD`).
 */
module Calendar {
  import opened Wrappers
  import opened Text

  // ------------------------------------------------------------------ dates

  datatype Ymd = Ymd(year: int, month: nat, day: nat)

  predicate IsLeapYear(y: int) {
    y % 4 == 0 && (y % 100 != 0 || y % 400 == 0)
  }

  function DaysInMonth(y: int, m: nat): (n: nat)
    requires 1 <= m <= 12
    ensures 28 <= n <= 31
    ensures n == 29 <==> m == 2 && IsLeapYear(y)
    ensures n == 28 <==> m == 2 && !IsLeapYear(y)
    ensures n == 30 <==> m == 4 || m == 6 || m == 9 || m == 11
  {
    if m == 2 then (if IsLeapYear(y) then 29 else 28)
    else if m == 4 || m == 6 || m == 9 || m == 11 then 30
    else 31
  }

  predicate ValidDate(d: Ymd) {
    1 <= d.month <= 12 && 1 <= d.day <= DaysInMonth(d.year, d.month)
  }

  /** A calendar date that exists: a `NaiveDate` can hold no other. */
  type Date = d: Ymd | ValidDate(d) witness Ymd(1970, 1, 1)

  /** The year as chrono displays it: four digits for 0..9999, otherwise signed. */
  function FormatYear(y: int): (s: string)
    ensures 0 <= y <= 9999 ==> s == Pad4(y)
    ensures y > 9999 ==> s == "+" + Decimal(y)
  {
    if 0 <= y <= 9999 then Pad4(y)
    else if y > 9999 then "+" + Decimal(y)
    else if -y <= 9999 then "-" + Pad4(-y)
    else "-" + Decimal(-y)
  }

  /** `NaiveDate`'s `Display`: `YYYY-MM-DD`. */
  function FormatDate(d: Date): (s: string)
    ensures 0 <= d.year <= 9999 ==> |s| == 10 && s[4] == '-' && s[7] == '-'
  {
    FormatYear(d.year) + "-" + Pad2(d.month) + "-" + Pad2(d.day)
  }

  /** For four-digit years the displayed date determines the date. */
  lemma FormatDateInjective(a: Date, b: Date)
    requires 0 <= a.year <= 9999 && 0 <= b.year <= 9999
    requires FormatDate(a) == FormatDate(b)
    ensures a == b
  {
    var s, t := FormatDate(a), FormatDate(b);
    assert s[..4] == Pad4(a.year) && t[..4] == Pad4(b.year);
    assert s[5..7] == Pad2(a.month) && t[5..7] == Pad2(b.month);
    assert s[8..] == Pad2(a.day) && t[8..] == Pad2(b.day);
  }

  // ------------------------------------------------------------------ times

  datatype HourMinute = HourMinute(hour: nat, minute: nat)

  /** A time of day to the minute (the source only ever builds times with zero seconds). */
  type Time = t: HourMinute | t.hour < 24 && t.minute < 60 witness HourMinute(0, 0)

  function Minutes(t: Time): nat { t.hour * 60 + t.minute }

  /** `HH:MM` with two-digit hour and minute. */
  function FormatTime(t: Time): (s: string)
    ensures |s| == 5 && s[2] == ':'
  {
    Pad2(t.hour) + ":" + Pad2(t.minute)
  }

  /**
   * The `%H:%M` time parser: exactly two ASCII digits for an hour 00..23, a colon,
   * and two ASCII digits for a minute 00..59; anything else fails.
   */
  function ParseTime(s: string): (r: Option<Time>)
    ensures r.Some? ==> |s| == 5
  {
    if |s| == 5 && AllDigits(s[..2]) && s[2] == ':' && AllDigits(s[3..]) then
      var h, m := DigitsValue(s[..2]), DigitsValue(s[3..]);
      if h < 24 && m < 60 then Some(HourMinute(h, m)) else None
    else None
  }

  /** Every time survives formatting and parsing. */
  lemma ParseFormatTime(t: Time)
    ensures ParseTime(FormatTime(t)) == Some(t)
  {
    var s := FormatTime(t);
    assert s[..2] == Pad2(t.hour);
    assert s[3..] == Pad2(t.minute);
  }

  /** Parsing accepts only strings that are the format of the time it returns. */
  lemma ParseTimeExact(s: string, t: Time)
    requires ParseTime(s) == Some(t)
    ensures s == FormatTime(t)
  {
    Pad2OfDigits(s[..2]);
    Pad2OfDigits(s[3..]);
    assert s == s[..2] + [s[2]] + s[3..];
  }
}
