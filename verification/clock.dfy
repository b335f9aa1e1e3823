/** Wall-clock times and calendar dates as the booking routes read and
    write them: `strptime(..., '%H:%M')`, `strftime('%H:%M')` and
    `strptime(..., '%Y-%m-%d')`.  A time is a number of minutes; the
    routes parse times onto Python's default date 1900-01-01, so a minute
    count is an offset from 1900-01-01 00:00 and may leave the day. */
module Clock {
  import opened Text

  const MinutesPerDay := 1440

  /** Offsets of `datetime.min` (0001-01-01 00:00) and of the first minute
      past `datetime.max` (10000-01-01 00:00) from 1900-01-01 00:00: a
      datetime outside [MinOffset, MaxOffset) raises OverflowError. */
  const MinOffset := -693595 * 1440
  const MaxOffset := 2958464 * 1440

  predicate InDatetimeRange(m: int)
  {
    MinOffset <= m < MaxOffset
  }

  /** `strftime('%H:%M')` of a time of day: zero-padded hours and minutes. */
  function FormatTime(m: int): (s: string)
    requires 0 <= m < MinutesPerDay
    ensures |s| == 5 && s[2] == ':'
  {
    Pad2(m / 60) + ":" + Pad2(m % 60)
  }

  /** `strftime('%H:%M')` of the datetime at offset m: only the time of
      day is printed, so the offset is reduced modulo a day (floor, as
      Python's datetime does before 1900-01-01). */
  function ClockLabel(m: int): string
  {
    FormatTime(m % MinutesPerDay)
  }

  /** `strptime(s, '%H:%M')`: the hours are one or two digits up to 23,
      the minutes one or two digits up to 59, and nothing else may
      follow. */
  function ParseTime(s: string): (r: Option<int>)
    ensures r.Some? ==> 0 <= r.value < MinutesPerDay
  {
    if |s| >= 3 && s[1] == ':' then HoursMinutes(s[..1], s[2..])
    else if |s| >= 4 && s[2] == ':' then HoursMinutes(s[..2], s[3..])
    else None
  }

  function HoursMinutes(h: string, m: string): (r: Option<int>)
    requires 1 <= |h| <= 2
    ensures r.Some? ==> 0 <= r.value < MinutesPerDay
  {
    if 1 <= |m| <= 2 && AllDigits(h) && AllDigits(m)
       && DigitsValue(h) <= 23 && DigitsValue(m) <= 59
    then Some(DigitsValue(h) * 60 + DigitsValue(m))
    else None
  }

  /** Parsing what `%H:%M` prints gives the time back. */
  lemma ParseFormatTime(m: int)
    requires 0 <= m < MinutesPerDay
    ensures ParseTime(FormatTime(m)) == Some(m)
  {
    var s := FormatTime(m);
    assert s[..2] == Pad2(m / 60);
    assert s[3..] == Pad2(m % 60);
    Pad2Value(m / 60);
    Pad2Value(m % 60);
  }

  /** A five-character time that parses is already in `%H:%M` form. */
  lemma FormatParseTime(s: string)
    requires |s| == 5 && ParseTime(s).Some?
    ensures FormatTime(ParseTime(s).value) == s
  {
    assert s[2] == ':';
    var h, m := s[..2], s[3..];
    Pad2OfValue(h);
    Pad2OfValue(m);
    var v := DigitsValue(h) * 60 + DigitsValue(m);
    assert v / 60 == DigitsValue(h) && v % 60 == DigitsValue(m);
    assert s == h + ":" + m;
  }

  /** Distinct times of day print differently. */
  lemma FormatTimeInjective(a: int, b: int)
    requires 0 <= a < MinutesPerDay && 0 <= b < MinutesPerDay
    requires FormatTime(a) == FormatTime(b)
    ensures a == b
  {
    ParseFormatTime(a);
    ParseFormatTime(b);
  }

  /** Distinct times of one day get distinct labels. */
  lemma ClockLabelInjective(a: int, b: int)
    requires 0 <= a < MinutesPerDay && 0 <= b < MinutesPerDay
    requires ClockLabel(a) == ClockLabel(b)
    ensures a == b
  {
    assert a % MinutesPerDay == a && b % MinutesPerDay == b;
    FormatTimeInjective(a, b);
  }

  /** A calendar date, compared field by field like Python's `date`. */
  datatype Date = Date(year: int, month: int, day: int)
  {
    predicate Before(other: Date)
    {
      year < other.year
      || (year == other.year && (month < other.month
          || (month == other.month && day < other.day)))
    }
  }

  predicate IsLeapYear(y: int)
  {
    y % 4 == 0 && (y % 100 != 0 || y % 400 == 0)
  }

  function DaysInMonth(y: int, m: int): int
    requires 1 <= m <= 12
  {
    if m == 2 then (if IsLeapYear(y) then 29 else 28)
    else if m == 4 || m == 6 || m == 9 || m == 11 then 30
    else 31
  }

  /** A date Python's `date` constructor accepts. */
  predicate ValidDate(d: Date)
  {
    1 <= d.year <= 9999 && 1 <= d.month <= 12 && 1 <= d.day <= DaysInMonth(d.year, d.month)
  }

  /** `strptime(s, '%Y-%m-%d').date()`: exactly four year digits, a month
      of one or two digits, a day of one or two digits or a space and a
      digit, and the result must be a real calendar date. */
  function ParseDate(s: string): (r: Option<Date>)
    ensures r.Some? ==> ValidDate(r.value)
  {
    if |s| < 5 || s[4] != '-' || !AllDigits(s[..4]) then None
    else
      var rest := s[5..];
      if |rest| >= 2 && rest[1] == '-' then DateOf(DigitsValue(s[..4]), rest[..1], rest[2..])
      else if |rest| >= 3 && rest[2] == '-' then DateOf(DigitsValue(s[..4]), rest[..2], rest[3..])
      else None
  }

  function DayField(d: string): Option<int>
  {
    if 1 <= |d| <= 2 && AllDigits(d) then Some(DigitsValue(d))
    else if |d| == 2 && d[0] == ' ' && IsDigit(d[1]) then Some(DigitValue(d[1]))
    else None
  }

  function DateOf(y: int, m: string, d: string): (r: Option<Date>)
    ensures r.Some? ==> ValidDate(r.value)
  {
    if !AllDigits(m) then None
    else match DayField(d)
      case None => None
      case Some(day) =>
        var date := Date(y, DigitsValue(m), day);
        if ValidDate(date) then Some(date) else None
  }

  /** ISO rendering `YYYY-MM-DD` of a valid date. */
  function FormatDate(d: Date): (s: string)
    requires ValidDate(d)
    ensures |s| == 10
  {
    Pad2(d.year / 100) + Pad2(d.year % 100) + "-" + Pad2(d.month) + "-" + Pad2(d.day)
  }

  /** Every valid date survives printing and parsing back. */
  lemma ParseFormatDate(d: Date)
    requires ValidDate(d)
    ensures ParseDate(FormatDate(d)) == Some(d)
  {
    var s := FormatDate(d);
    var y := Pad2(d.year / 100) + Pad2(d.year % 100);
    assert s[..4] == y;
    DigitsValueAppend2(Pad2(d.year / 100), Pad2(d.year % 100));
    Pad2Value(d.year / 100);
    Pad2Value(d.year % 100);
    var rest := s[5..];
    assert rest[..2] == Pad2(d.month);
    assert rest[3..] == Pad2(d.day);
    Pad2Value(d.month);
    Pad2Value(d.day);
  }
}
