/** Wall-clock times as the program formats and parses them with strftime and
    strptime. The clock itself (datetime.now()) is an input to every operation. */
module Clock {

  import opened Basics
  import opened Numerics

  /** A datetime to the second; microseconds never reach any format used here. */
  datatype DateTime = DateTime(year: int, month: int, day: int, hour: int, minute: int, second: int)

  predicate IsLeapYear(year: int)
  {
    year % 4 == 0 && (year % 100 != 0 || year % 400 == 0)
  }

  function DaysInMonth(year: int, month: int): int
    requires 1 <= month <= 12
  {
    if month == 2 then (if IsLeapYear(year) then 29 else 28)
    else if month == 4 || month == 6 || month == 9 || month == 11 then 30
    else 31
  }

  /** The datetimes Python can represent (years 1 to 9999), to the second. */
  predicate Valid(dt: DateTime)
  {
    && 1 <= dt.year <= 9999
    && 1 <= dt.month <= 12
    && 1 <= dt.day <= DaysInMonth(dt.year, dt.month)
    && 0 <= dt.hour < 24
    && 0 <= dt.minute < 60
    && 0 <= dt.second < 60
  }

  /** A reading of datetime.now(): always a representable moment. */
  type Instant = dt: DateTime | Valid(dt) witness DateTime(1970, 1, 1, 0, 0, 0)

  /** strftime("%Y-%m-%d") */
  function DateText(dt: DateTime): string
    requires Valid(dt)
  {
    Pad4(dt.year) + "-" + Pad2(dt.month) + "-" + Pad2(dt.day)
  }

  /** strftime("%H:%M:%S") */
  function TimeText(dt: DateTime): string
    requires Valid(dt)
  {
    Pad2(dt.hour) + ":" + Pad2(dt.minute) + ":" + Pad2(dt.second)
  }

  /** strftime("%Y-%m-%d %H:%M:%S") */
  function StampText(dt: DateTime): string
    requires Valid(dt)
  {
    Pad4(dt.year) + "-" + Pad2(dt.month) + "-" + Pad2(dt.day) + " "
      + Pad2(dt.hour) + ":" + Pad2(dt.minute) + ":" + Pad2(dt.second)
  }

  /** strftime("%d/%m/%Y") */
  function DayFirstDate(dt: DateTime): string
    requires Valid(dt)
  {
    Pad2(dt.day) + "/" + Pad2(dt.month) + "/" + Pad4(dt.year)
  }

  /** strftime("%Y-%m-%d_%H-%M-%S"), the stamp in generated report names. */
  function FileStamp(dt: DateTime): string
    requires Valid(dt)
  {
    Pad4(dt.year) + "-" + Pad2(dt.month) + "-" + Pad2(dt.day) + "_"
      + Pad2(dt.hour) + "-" + Pad2(dt.minute) + "-" + Pad2(dt.second)
  }

  /** The full stamp is the date, a space and the time, so a row's timestamp
      column always equals its date and time columns joined. */
  lemma StampIsDateSpaceTime(dt: DateTime)
    requires Valid(dt)
    ensures StampText(dt) == DateText(dt) + " " + TimeText(dt)
    ensures |StampText(dt)| == 19
  {
  }

  /** datetime.strptime(s, "%Y-%m-%d %H:%M:%S") on the zero-padded layout:
      a datetime when s has that layout and names a real moment, None where
      strptime would raise. */
  function ParseStamp(s: string): (r: Option<DateTime>)
    ensures r.Some? ==> Valid(r.value)
  {
    if && |s| == 19
       && s[4] == '-' && s[7] == '-' && s[10] == ' ' && s[13] == ':' && s[16] == ':'
       && AllDigits(s[0..4]) && AllDigits(s[5..7]) && AllDigits(s[8..10])
       && AllDigits(s[11..13]) && AllDigits(s[14..16]) && AllDigits(s[17..19])
    then
      var dt := DateTime(Value4(s[0..4]), Value2(s[5..7]), Value2(s[8..10]),
                         Value2(s[11..13]), Value2(s[14..16]), Value2(s[17..19]));
      if Valid(dt) then Some(dt) else None
    else None
  }

  /** Parsing what strftime wrote gives back the moment. */
  lemma ParseOfStamp(dt: DateTime)
    requires Valid(dt)
    ensures ParseStamp(StampText(dt)) == Some(dt)
  {
    var s := StampText(dt);
    assert s[0..4] == Pad4(dt.year);
    assert s[5..7] == Pad2(dt.month);
    assert s[8..10] == Pad2(dt.day);
    assert s[11..13] == Pad2(dt.hour);
    assert s[14..16] == Pad2(dt.minute);
    assert s[17..19] == Pad2(dt.second);
  }

  /** A stamp that parses is exactly what strftime writes for the parsed moment:
      the layout has one spelling per moment. */
  lemma StampOfParse(s: string)
    requires ParseStamp(s).Some?
    ensures StampText(ParseStamp(s).value) == s
  {
    var dt := ParseStamp(s).value;
    Pad4OfValue(s[0..4]);
    Pad2OfValue(s[5..7]);
    Pad2OfValue(s[8..10]);
    Pad2OfValue(s[11..13]);
    Pad2OfValue(s[14..16]);
    Pad2OfValue(s[17..19]);
    assert s == s[0..4] + [s[4]] + s[5..7] + [s[7]] + s[8..10] + [s[10]]
              + s[11..13] + [s[13]] + s[14..16] + [s[16]] + s[17..19];
  }
}
