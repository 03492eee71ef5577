/** The date resolver of `WatermarkTool.get_exif_date`: the watermark text is the
    capture date taken from the EXIF "DateTime" tag, else the file's modification
    date, else today's date, always written as "YYYY-MM-DD". */
module Dates {
  import opened Wrappers
  import opened Digits

  datatype Date = Date(year: nat, month: nat, day: nat)

  datatype DateTime = DateTime(date: Date, hour: nat, minute: nat, second: nat)

  /** Leap years of the proleptic Gregorian calendar, as Python's `datetime` uses. */
  predicate IsLeapYear(year: nat) {
    year % 4 == 0 && (year % 100 != 0 || year % 400 == 0)
  }

  function DaysInMonth(year: nat, month: nat): (days: nat)
    requires 1 <= month <= 12
    ensures 28 <= days <= 31
    ensures days == 29 <==> month == 2 && IsLeapYear(year)
  {
    if month == 2 then (if IsLeapYear(year) then 29 else 28)
    else if month == 4 || month == 6 || month == 9 || month == 11 then 30
    else 31
  }

  /** The dates a Python `datetime` can hold (years 1 to 9999). */
  predicate IsValidDate(d: Date) {
    1 <= d.year <= 9999 && 1 <= d.month <= 12 && 1 <= d.day <= DaysInMonth(d.year, d.month)
  }

  type CalendarDate = d: Date | IsValidDate(d) witness Date(1970, 1, 1)

  predicate IsValidDateTime(t: DateTime) {
    IsValidDate(t.date) && t.hour < 24 && t.minute < 60 && t.second < 60
  }

  // ---- the two text layouts ----

  /** Year, month and day fields of 4, 2 and 2 digits separated by `sep`:
      "2023:05:17" in an EXIF stamp, "2023-05-17" in a watermark. */
  predicate DateShape(s: string, sep: char) {
    |s| == 10 && AllDigits(s[0..4]) && s[4] == sep && AllDigits(s[5..7]) && s[7] == sep && AllDigits(s[8..10])
  }

  /** Hour, minute and second fields of 2 digits separated by ':'. */
  predicate TimeShape(s: string) {
    |s| == 8 && AllDigits(s[0..2]) && s[2] == ':' && AllDigits(s[3..5]) && s[5] == ':' && AllDigits(s[6..8])
  }

  function ReadDate(s: string, sep: char): Date
    requires DateShape(s, sep)
  {
    Date(ParseDigits(s[0..4]), ParseDigits(s[5..7]), ParseDigits(s[8..10]))
  }

  function WriteDate(d: Date, sep: char): (s: string)
    ensures DateShape(s, sep)
    ensures s[0..4] == PadDigits(d.year, 4) && s[5..7] == PadDigits(d.month, 2) && s[8..10] == PadDigits(d.day, 2)
  {
    PadDigits(d.year, 4) + [sep] + PadDigits(d.month, 2) + [sep] + PadDigits(d.day, 2)
  }

  function WriteTime(hour: nat, minute: nat, second: nat): (s: string)
    ensures TimeShape(s)
    ensures s[0..2] == PadDigits(hour, 2) && s[3..5] == PadDigits(minute, 2) && s[6..8] == PadDigits(second, 2)
  {
    PadDigits(hour, 2) + [':'] + PadDigits(minute, 2) + [':'] + PadDigits(second, 2)
  }

  /** A date whose fields fit their widths is read back from its writing. */
  lemma DateRoundTrip(d: Date, sep: char)
    requires d.year < 10000 && d.month < 100 && d.day < 100
    ensures ReadDate(WriteDate(d, sep), sep) == d
  {
    ParsePad(d.year, 4);
    ParsePad(d.month, 2);
    ParsePad(d.day, 2);
  }

  /** A date field group is the writing of the date it reads as. */
  lemma DateCanonical(s: string, sep: char)
    requires DateShape(s, sep)
    ensures WriteDate(ReadDate(s, sep), sep) == s
  {
    PadParse(s[0..4]);
    PadParse(s[5..7]);
    PadParse(s[8..10]);
    var d := ReadDate(s, sep);
    calc {
      WriteDate(d, sep);
      PadDigits(d.year, 4) + [sep] + PadDigits(d.month, 2) + [sep] + PadDigits(d.day, 2);
      s[0..4] + [sep] + s[5..7] + [sep] + s[8..10];
      s;
    }
  }

  /** A time field group is the writing of the time it reads as. */
  lemma TimeCanonical(s: string)
    requires TimeShape(s)
    ensures WriteTime(ParseDigits(s[0..2]), ParseDigits(s[3..5]), ParseDigits(s[6..8])) == s
  {
    PadParse(s[0..2]);
    PadParse(s[3..5]);
    PadParse(s[6..8]);
    assert s == s[0..2] + [':'] + s[3..5] + [':'] + s[6..8];
  }

  // ---- EXIF stamps ----

  /** The layout "YYYY:MM:DD HH:MM:SS" of the EXIF time stamp, every field written out in full. */
  predicate ExifShape(s: string) {
    |s| == 19 && DateShape(s[..10], ':') && s[10] == ' ' && TimeShape(s[11..])
  }

  /** `datetime.strptime(value, "%Y:%m:%d %H:%M:%S")` on the canonical form: None
      stands for the ValueError raised on a malformed stamp or an impossible date. */
  function ParseExif(s: string): (t: Option<DateTime>)
    ensures t.Some? ==> IsValidDateTime(t.value)
  {
    if !ExifShape(s) then None
    else
      var time := s[11..];
      var t := DateTime(ReadDate(s[..10], ':'),
                        ParseDigits(time[0..2]), ParseDigits(time[3..5]), ParseDigits(time[6..8]));
      if IsValidDateTime(t) then Some(t) else None
  }

  /** The EXIF time stamp of a date and time: the writer's side of `ParseExif`. */
  function FormatExif(t: DateTime): (s: string)
    ensures ExifShape(s)
    ensures s[..10] == WriteDate(t.date, ':') && s[11..] == WriteTime(t.hour, t.minute, t.second)
  {
    var s := WriteDate(t.date, ':') + [' '] + WriteTime(t.hour, t.minute, t.second);
    assert s[..10] == WriteDate(t.date, ':');
    assert s[11..] == WriteTime(t.hour, t.minute, t.second);
    s
  }

  /** Every valid time stamp survives writing it out and parsing it again. */
  lemma ExifRoundTrip(t: DateTime)
    requires IsValidDateTime(t)
    ensures ParseExif(FormatExif(t)) == Some(t)
  {
    DateRoundTrip(t.date, ':');
    ParsePad(t.hour, 2);
    ParsePad(t.minute, 2);
    ParsePad(t.second, 2);
  }

  /** Every stamp the parser accepts is the canonical writing of what it parses to:
      with `ExifRoundTrip`, parsing is a bijection between accepted stamps and valid times. */
  lemma ExifCanonical(s: string)
    requires ParseExif(s).Some?
    ensures FormatExif(ParseExif(s).value) == s
  {
    DateCanonical(s[..10], ':');
    TimeCanonical(s[11..]);
    assert s == s[..10] + [' '] + s[11..];
  }

  // ---- watermark text ----

  /** `strftime("%Y-%m-%d")`: the watermark text of a date. */
  function FormatDate(d: Date): (s: string)
    ensures |s| == 10 && s[4] == '-' && s[7] == '-'
    ensures AllDigits(s[0..4]) && AllDigits(s[5..7]) && AllDigits(s[8..10])
  {
    WriteDate(d, '-')
  }

  /** Reads a watermark text back as a date; None unless it is a valid "YYYY-MM-DD". */
  function ParseIsoDate(s: string): (d: Option<Date>)
    ensures d.Some? ==> IsValidDate(d.value)
  {
    if DateShape(s, '-') && IsValidDate(ReadDate(s, '-')) then Some(ReadDate(s, '-')) else None
  }

  /** The watermark text of a valid date reads back as that date. */
  lemma IsoRoundTrip(d: Date)
    requires IsValidDate(d)
    ensures ParseIsoDate(FormatDate(d)) == Some(d)
  {
    DateRoundTrip(d, '-');
  }

  /** A well-formed EXIF stamp becomes its date part with '-' between the
      fields, denoting the captured date; anything else is refused. */
  function ExifToIso(s: string): (r: Option<string>)
    ensures r.Some? <==> ParseExif(s).Some?
    ensures r.Some? ==> |r.value| == 10 && r.value[4] == '-' && r.value[7] == '-' &&
                        r.value[0..4] == s[0..4] && r.value[5..7] == s[5..7] && r.value[8..10] == s[8..10]
    ensures r.Some? ==> ParseIsoDate(r.value) == Some(ParseExif(s).value.date)
  {
    match ParseExif(s)
    case None => None
    case Some(t) =>
      DateCanonical(s[..10], ':');
      IsoRoundTrip(t.date);
      Some(FormatDate(t.date))
  }

  /** The watermark text of a valid EXIF stamp is the text of the date it records. */
  lemma ReformatWrittenStamp(t: DateTime)
    requires IsValidDateTime(t)
    ensures ExifToIso(FormatExif(t)) == Some(FormatDate(t.date))
  {
    ExifRoundTrip(t);
  }

  // ---- the fallback chain ----

  /** The capture date recorded in the EXIF "DateTime" value, if there is one and it parses. */
  function ExifDate(exif: Option<string>): (d: Option<Date>)
    ensures d.Some? ==> IsValidDate(d.value)
    ensures d.Some? <==> exif.Some? && ParseExif(exif.value).Some?
  {
    if exif.Some? && ParseExif(exif.value).Some? then Some(ParseExif(exif.value).value.date) else None
  }

  /** `get_exif_date`: the first available of the EXIF date, the modification date and
      today's date, as "YYYY-MM-DD". */
  function ResolveDate(exif: Option<string>, mtime: Option<CalendarDate>, now: CalendarDate): (r: string)
    ensures |r| == 10 && r[4] == '-' && r[7] == '-'
  {
    if exif.Some? && ExifToIso(exif.value).Some? then
      ExifToIso(exif.value).value
    else if mtime.Some? then
      FormatDate(mtime.value)
    else
      FormatDate(now)
  }

  /** The resolver never fails: its text always denotes a valid date, and that date is the
      EXIF date when there is one, else the modification date when there is one, else today. */
  lemma ResolveDatePriority(exif: Option<string>, mtime: Option<CalendarDate>, now: CalendarDate)
    ensures var r := ResolveDate(exif, mtime, now);
            ParseIsoDate(r).Some? &&
            (ExifDate(exif).Some? ==> ParseIsoDate(r) == ExifDate(exif) && r == ExifToIso(exif.value).value) &&
            (ExifDate(exif).None? && mtime.Some? ==> ParseIsoDate(r) == Some(mtime.value)) &&
            (ExifDate(exif).None? && mtime.None? ==> ParseIsoDate(r) == Some(now))
  {
    if exif.Some? && ExifToIso(exif.value).Some? {
    } else if mtime.Some? {
      IsoRoundTrip(mtime.value);
    } else {
      IsoRoundTrip(now);
    }
  }

  // ---- examples ----

  /** The date half of a sample stamp. */
  lemma ExampleDateFields(date: string)
    requires date == "2023:05:17"
    ensures DateShape(date, ':') && ReadDate(date, ':') == Date(2023, 5, 17)
  {
    assert date[0..4] == "2023" && date[5..7] == "05" && date[8..10] == "17";
    ParseFourDigits("2023");
    ParseTwoDigits("05");
    ParseTwoDigits("17");
  }

  /** The time half of a sample stamp. */
  lemma ExampleTimeFields(time: string)
    requires time == "10:00:00"
    ensures TimeShape(time)
    ensures ParseDigits(time[0..2]) == 10 && ParseDigits(time[3..5]) == 0 && ParseDigits(time[6..8]) == 0
  {
    assert time[0..2] == "10" && time[3..5] == "00" && time[6..8] == "00";
    ParseTwoDigits("10");
    ParseTwoDigits("00");
  }

  /** A sample stamp is accepted. */
  lemma ExampleStampParses(s: string)
    requires s == "2023:05:17 10:00:00"
    ensures ParseExif(s) == Some(DateTime(Date(2023, 5, 17), 10, 0, 0))
  {
    assert s[..10] == "2023:05:17" && s[11..] == "10:00:00";
    ExampleDateFields(s[..10]);
    ExampleTimeFields(s[11..]);
  }

  /** A sample stamp, "2023:05:17 10:00:00", gives the text "2023-05-17". */
  lemma ExifExample(s: string)
    requires s == "2023:05:17 10:00:00"
    ensures ExifToIso(s) == Some("2023-05-17")
  {
    ExampleStampParses(s);
    var r := ExifToIso(s).value;
    var expected := "2023-05-17";
    forall i | 0 <= i < 10
      ensures r[i] == expected[i]
    {
      if i < 4 {
        assert r[i] == r[0..4][i] == s[0..4][i];
      } else if 4 < i < 7 {
        assert r[i] == r[5..7][i - 5] == s[5..7][i - 5];
      } else if 7 < i {
        assert r[i] == r[8..10][i - 8] == s[8..10][i - 8];
      }
    }
    assert r == expected;
  }

  /** The date half of a stamp naming 29 February 2023. */
  lemma LeapDayFields(date: string)
    requires date == "2023:02:29"
    ensures DateShape(date, ':') && ReadDate(date, ':') == Date(2023, 2, 29)
  {
    assert date[0..4] == "2023" && date[5..7] == "02" && date[8..10] == "29";
    ParseFourDigits("2023");
    ParseTwoDigits("02");
    ParseTwoDigits("29");
  }

  /** A stamp naming a day the calendar does not have is refused, so the resolver falls back. */
  lemma ImpossibleDayRefused(s: string)
    requires s == "2023:02:29 10:00:00"
    ensures ExifToIso(s) == None
  {
    assert s[..10] == "2023:02:29";
    LeapDayFields(s[..10]);
  }
}
