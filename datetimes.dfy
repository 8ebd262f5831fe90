/** The parts of Python's datetime the record converter uses:
    strptime with "%Y-%m-%d" and "%H:%M", strftime with "%m/%d/%Y" and "%H:%M",
    and the .seconds of the difference of two times of the same day.
    Parsing is fixed width: four, two and two ASCII digits for a date, two and two for a time. */
module Datetimes {
  import opened Errors
  import opened Text

  datatype Date = Date(year: nat, month: nat, day: nat)

  datatype Time = Time(hour: nat, minute: nat)

  predicate IsLeapYear(year: nat)
  {
    year % 4 == 0 && (year % 100 != 0 || year % 400 == 0)
  }

  function DaysInMonth(year: nat, month: nat): nat
    requires 1 <= month <= 12
  {
    if month == 2 then (if IsLeapYear(year) then 29 else 28)
    else if month == 4 || month == 6 || month == 9 || month == 11 then 30
    else 31
  }

  /** The dates datetime can represent: years 1 to 9999 of the proleptic Gregorian calendar. */
  predicate ValidDate(d: Date)
  {
    1 <= d.year <= 9999 && 1 <= d.month <= 12 && 1 <= d.day <= DaysInMonth(d.year, d.month)
  }

  predicate ValidTime(t: Time)
  {
    t.hour <= 23 && t.minute <= 59
  }

  /** The "YYYY-MM-DD" text of a date. */
  function IsoDateText(d: Date): string
  {
    PadDecimal(d.year, 4) + "-" + PadDecimal(d.month, 2) + "-" + PadDecimal(d.day, 2)
  }

  /** d.strftime("%m/%d/%Y"). */
  function UsDateText(d: Date): string
  {
    PadDecimal(d.month, 2) + "/" + PadDecimal(d.day, 2) + "/" + PadDecimal(d.year, 4)
  }

  /** t.strftime("%H:%M"). */
  function TimeText(t: Time): string
  {
    PadDecimal(t.hour, 2) + ":" + PadDecimal(t.minute, 2)
  }

  predicate IsDateShaped(s: string)
  {
    |s| == 10 && s[4] == '-' && s[7] == '-' && AllDigits(s[..4]) && AllDigits(s[5..7]) && AllDigits(s[8..])
  }

  predicate IsTimeShaped(s: string)
  {
    |s| == 5 && s[2] == ':' && AllDigits(s[..2]) && AllDigits(s[3..])
  }

  /** datetime.strptime(s, "%Y-%m-%d"): a valid date whose "YYYY-MM-DD" text is s, or ValueError. */
  function ParseDate(s: string): (r: Result<Date>)
    ensures r.Ok? ==> ValidDate(r.value) && IsoDateText(r.value) == s
    ensures r.Err? ==> r.error.ValueError?
  {
    if !IsDateShaped(s) then Err(ValueError("time data does not match format '%Y-%m-%d'"))
    else
      var d := Date(DecimalValue(s[..4]), DecimalValue(s[5..7]), DecimalValue(s[8..]));
      if !(1 <= d.month <= 12 && 1 <= d.day <= 31) then Err(ValueError("time data does not match format '%Y-%m-%d'"))
      else if d.year == 0 then Err(ValueError("year is out of range"))
      else if d.day > DaysInMonth(d.year, d.month) then Err(ValueError("day is out of range for month"))
      else
        DateShapedText(s);
        DecimalValueBound(s[..4]);
        assert Pow10(4) == 10000;
        Ok(d)
  }

  /** A date-shaped text is the "YYYY-MM-DD" text of the numbers its digit groups denote. */
  lemma DateShapedText(s: string)
    requires IsDateShaped(s)
    ensures IsoDateText(Date(DecimalValue(s[..4]), DecimalValue(s[5..7]), DecimalValue(s[8..]))) == s
  {
    DecimalValuePad(s[..4]);
    DecimalValuePad(s[5..7]);
    DecimalValuePad(s[8..]);
    assert s == s[..4] + "-" + s[5..7] + "-" + s[8..];
  }

  /** A time-shaped text is the "HH:MM" text of the numbers its digit groups denote. */
  lemma TimeShapedText(s: string)
    requires IsTimeShaped(s)
    ensures TimeText(Time(DecimalValue(s[..2]), DecimalValue(s[3..]))) == s
  {
    DecimalValuePad(s[..2]);
    DecimalValuePad(s[3..]);
    assert s == s[..2] + ":" + s[3..];
  }

  /** datetime.strptime(s, "%H:%M"): a valid time whose "HH:MM" text is s, or ValueError. */
  function ParseTime(s: string): (r: Result<Time>)
    ensures r.Ok? ==> ValidTime(r.value) && TimeText(r.value) == s
    ensures r.Err? ==> r.error.ValueError?
  {
    if !IsTimeShaped(s) then Err(ValueError("time data does not match format '%H:%M'"))
    else
      var t := Time(DecimalValue(s[..2]), DecimalValue(s[3..]));
      if !ValidTime(t) then Err(ValueError("time data does not match format '%H:%M'"))
      else
        TimeShapedText(s);
        Ok(t)
  }

  /** Every valid date is read back from its own "YYYY-MM-DD" text. */
  lemma ParseIsoDateText(d: Date)
    requires ValidDate(d)
    ensures ParseDate(IsoDateText(d)) == Ok(d)
  {
    var s := IsoDateText(d);
    assert s[..4] == PadDecimal(d.year, 4);
    assert s[5..7] == PadDecimal(d.month, 2);
    assert s[8..] == PadDecimal(d.day, 2);
    PadDecimalValue(d.year, 4);
    PadDecimalValue(d.month, 2);
    PadDecimalValue(d.day, 2);
  }

  /** Every valid time is read back from its own "HH:MM" text. */
  lemma ParseTimeTextRoundTrip(t: Time)
    requires ValidTime(t)
    ensures ParseTime(TimeText(t)) == Ok(t)
  {
    var s := TimeText(t);
    assert s[..2] == PadDecimal(t.hour, 2);
    assert s[3..] == PadDecimal(t.minute, 2);
    PadDecimalValue(t.hour, 2);
    PadDecimalValue(t.minute, 2);
  }

  /** Reformatting a parsed date as "%m/%d/%Y" moves the digit groups of "YYYY-MM-DD" to "MM/DD/YYYY". */
  lemma ReformatDate(s: string)
    requires ParseDate(s).Ok?
    ensures UsDateText(ParseDate(s).value) == s[5..7] + "/" + s[8..] + "/" + s[..4]
  {
    var d := ParseDate(s).value;
    var iso := IsoDateText(d);
    assert iso[..4] == PadDecimal(d.year, 4);
    assert iso[5..7] == PadDecimal(d.month, 2);
    assert iso[8..] == PadDecimal(d.day, 2);
  }

  function MinuteOfDay(t: Time): int
  {
    t.hour * 60 + t.minute
  }

  /** The whole minutes of (end - start).seconds, computed as hours * 60 + minutes the way the source does.
      A timedelta keeps its seconds in [0, 86400), so the seconds are the difference modulo one day. */
  function DurationMinutes(start: Time, end: Time): nat
  {
    var seconds := (end.hour * 3600 + end.minute * 60 - (start.hour * 3600 + start.minute * 60)) % 86400;
    var hours := seconds / 3600;
    var minutes := (seconds % 3600) / 60;
    hours * 60 + minutes
  }

  /** The duration is the minute difference of end and start modulo one day:
      a session that ends before it starts counts the minutes to the next day's end time. */
  lemma DurationIsMinuteDifference(start: Time, end: Time)
    ensures DurationMinutes(start, end) == (MinuteOfDay(end) - MinuteOfDay(start)) % 1440
    ensures DurationMinutes(start, end) < 1440
  {
  }

  /** A visit from 09:00 to 10:30 lasts "90" minutes. */
  lemma NinetyMinuteVisit()
    ensures ParseTime("09:00") == Ok(Time(9, 0))
    ensures ParseTime("10:30") == Ok(Time(10, 30))
    ensures Decimal(DurationMinutes(Time(9, 0), Time(10, 30))) == "90"
  {
    assert TimeText(Time(9, 0)) == "09:00";
    assert TimeText(Time(10, 30)) == "10:30";
    ParseTimeTextRoundTrip(Time(9, 0));
    ParseTimeTextRoundTrip(Time(10, 30));
    DurationIsMinuteDifference(Time(9, 0), Time(10, 30));
    assert DurationMinutes(Time(9, 0), Time(10, 30)) == 90;
    assert Decimal(9) == "9";
    assert Decimal(90) == Decimal(9) + "0";
  }
}
