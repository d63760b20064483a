/** Calendar dates and clock times as the viewer stores and compares them:
    an event's generation time is written out as "DD-MM-YYYY" and
    "HH:MM:SS", and the filter reads the date string back to compare it
    with the chosen bounds. */
module Calendar {
  import opened Wrappers
  import opened Text

  datatype Date = Date(day: int, month: int, year: int)

  datatype Time = Time(hour: int, minute: int, second: int)

  predicate IsLeapYear(year: int)
  {
    year % 4 == 0 && (year % 100 != 0 || year % 400 == 0)
  }

  function DaysInMonth(month: int, year: int): int
  {
    if month == 2 then (if IsLeapYear(year) then 29 else 28)
    else if month == 4 || month == 6 || month == 9 || month == 11 then 30
    else 31
  }

  /** The dates Python's `date` type admits: years 1 to 9999, real days of real months. */
  predicate ValidDate(d: Date)
  {
    1 <= d.year <= 9999 && 1 <= d.month <= 12 && 1 <= d.day <= DaysInMonth(d.month, d.year)
  }

  type CalendarDate = d: Date | ValidDate(d) witness Date(1, 1, 1)

  predicate ValidTime(t: Time)
  {
    0 <= t.hour < 24 && 0 <= t.minute < 60 && 0 <= t.second < 60
  }

  type ClockTime = t: Time | ValidTime(t) witness Time(0, 0, 0)

  /** strftime("%d-%m-%Y"). */
  function FormatDate(d: CalendarDate): (s: string)
    ensures |s| == 10 && s[2] == '-' && s[5] == '-'
  {
    PadDigits(d.day, 2) + "-" + PadDigits(d.month, 2) + "-" + PadDigits(d.year, 4)
  }

  /** strptime(s, "%d-%m-%Y").date() on the fixed-width form; None where
      strptime raises (wrong shape, or no such day). */
  function ParseDate(s: string): (r: Option<CalendarDate>)
    ensures r.Some? ==> |s| == 10 && s[2] == '-' && s[5] == '-'
  {
    if |s| == 10 && s[2] == '-' && s[5] == '-'
       && AllDigits(s[..2]) && AllDigits(s[3..5]) && AllDigits(s[6..])
    then
      var d := Date(DigitsValue(s[..2]), DigitsValue(s[3..5]), DigitsValue(s[6..]));
      if ValidDate(d) then Some(d) else None
    else None
  }

  /** strftime("%H:%M:%S"). */
  function FormatTime(t: ClockTime): (s: string)
    ensures |s| == 8 && s[2] == ':' && s[5] == ':'
  {
    PadDigits(t.hour, 2) + ":" + PadDigits(t.minute, 2) + ":" + PadDigits(t.second, 2)
  }

  /** Python's ordering of dates: by year, then month, then day. */
  predicate DateLeq(a: Date, b: Date)
    ensures a == b ==> DateLeq(a, b)
    ensures DateLeq(a, b) ==> a.year <= b.year
  {
    a.year < b.year
    || (a.year == b.year && (a.month < b.month || (a.month == b.month && a.day <= b.day)))
  }

  /** A stored date string reads back as the date it was written from. */
  lemma FormatParseRoundTrip(d: CalendarDate)
    ensures ParseDate(FormatDate(d)) == Some(d)
  {
    var s := FormatDate(d);
    assert s[..2] == PadDigits(d.day, 2);
    assert s[3..5] == PadDigits(d.month, 2);
    assert s[6..] == PadDigits(d.year, 4);
    PadDigitsRoundTrip(d.day, 2);
    PadDigitsRoundTrip(d.month, 2);
    PadDigitsRoundTrip(d.year, 4);
  }

  /** The only string that parses to a date is that date's own rendering,
      so parsing never merges two different stored strings. */
  lemma ParseFormatRoundTrip(s: string)
    ensures ParseDate(s).Some? ==> FormatDate(ParseDate(s).value) == s
  {
    if ParseDate(s).Some? {
      DigitsValueRoundTrip(s[..2]);
      DigitsValueRoundTrip(s[3..5]);
      DigitsValueRoundTrip(s[6..]);
      assert s == s[..2] + "-" + s[3..5] + "-" + s[6..];
    }
  }

  /** The rendered time has the "HH:MM:SS" shape and each field reads back
      as the hour, minute and second it came from. */
  lemma FormatTimeFields(t: ClockTime)
    ensures |FormatTime(t)| == 8 && FormatTime(t)[2] == ':' && FormatTime(t)[5] == ':'
    ensures AllDigits(FormatTime(t)[..2]) && DigitsValue(FormatTime(t)[..2]) == t.hour
    ensures AllDigits(FormatTime(t)[3..5]) && DigitsValue(FormatTime(t)[3..5]) == t.minute
    ensures AllDigits(FormatTime(t)[6..]) && DigitsValue(FormatTime(t)[6..]) == t.second
  {
    var s := FormatTime(t);
    assert s[..2] == PadDigits(t.hour, 2);
    assert s[3..5] == PadDigits(t.minute, 2);
    assert s[6..] == PadDigits(t.second, 2);
    PadDigitsRoundTrip(t.hour, 2);
    PadDigitsRoundTrip(t.minute, 2);
    PadDigitsRoundTrip(t.second, 2);
  }

  /** The date order is a total order on dates, so `start <= d <= end`
      describes an interval whose ends both belong to it. */
  lemma DateLeqIsTotalOrder(a: Date, b: Date, c: Date)
    ensures DateLeq(a, a)
    ensures DateLeq(a, b) || DateLeq(b, a)
    ensures DateLeq(a, b) && DateLeq(b, a) ==> a == b
    ensures DateLeq(a, b) && DateLeq(b, c) ==> DateLeq(a, c)
  {
  }
}
