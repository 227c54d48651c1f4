/** Wall-clock texts of the event popup: the `hh:mm AM/PM` format, the
    96 quarter-hour options of the time pickers, the one-hour default end
    time and the duration label. A clock value is the number of minutes
    since midnight, 0 to 1439. */
module Clock {
  import opened Text
  import opened Outcomes

  const MinutesPerDay := 1440

  predicate IsClock(m: int) {
    0 <= m < MinutesPerDay
  }

  /** The 12-hour clock hour of a 24-hour hour: 0 and 12 show as 12. */
  function Hour12(h24: nat): (h: nat)
    requires h24 < 24
    ensures 1 <= h <= 12
  {
    if h24 % 12 == 0 then 12 else h24 % 12
  }

  /** The 24-hour hour of a 12-hour hour and its half of the day: 12 AM is
      hour 0, 12 PM is hour 12. */
  function Hour24(h: nat, pm: bool): (h24: nat)
    requires 1 <= h <= 12
    ensures h24 < 24 && (h24 >= 12 <==> pm)
  {
    if pm then (if h == 12 then 12 else h + 12) else (if h == 12 then 0 else h)
  }

  lemma Hour12Of24(h: nat, pm: bool)
    requires 1 <= h <= 12
    ensures Hour12(Hour24(h, pm)) == h
  {
  }

  lemma Hour24Of12(h24: nat)
    requires h24 < 24
    ensures Hour24(Hour12(h24), h24 >= 12) == h24
  {
  }

  /** `hh:mm AM` or `hh:mm PM`. */
  function ClockText(h: nat, mm: nat, pm: bool): string
    requires h < 100 && mm < 100
  {
    Two(h) + ":" + Two(mm) + " " + (if pm then "PM" else "AM")
  }

  /** date-fns `format(t, 'hh:mm a')`, and equally
      `toLocaleTimeString('en-US', { hour: '2-digit', minute: '2-digit' })`. */
  function FormatClock(m: int): string
    requires IsClock(m)
  {
    ClockText(Hour12(m / 60), m % 60, m >= 720)
  }

  /** Two digits, a colon, two digits, a space and AM or PM. */
  predicate ClockShape(s: string) {
    |s| == 8 && IsDigit(s[0]) && IsDigit(s[1]) && s[2] == ':' && IsDigit(s[3]) && IsDigit(s[4])
    && s[5] == ' ' && (s[6..] == "AM" || s[6..] == "PM")
  }

  /** The time of `new Date("2000-01-01 " + s)` for a text of the form
      `hh:mm AM` or `hh:mm PM` with `hh` in 01..12 and `mm` in 00..59; any
      other text gives an Invalid Date, modelled as None. */
  function ParseClock(s: string): (r: Option<int>)
    ensures r.Some? ==> IsClock(r.value)
  {
    if ClockShape(s) then
      var h := ValueOfTwo(s[..2]);
      var mm := ValueOfTwo(s[3..5]);
      if 1 <= h <= 12 && mm < 60 then Some(60 * Hour24(h, s[6..] == "PM") + mm) else None
    else None
  }

  lemma DivModSixty(h: nat, mm: nat)
    requires mm < 60
    ensures (60 * h + mm) / 60 == h && (60 * h + mm) % 60 == mm
  {
  }

  lemma ClockTextParts(h: nat, mm: nat, pm: bool)
    requires h < 100 && mm < 100
    ensures var s := ClockText(h, mm, pm);
      ClockShape(s) && s[..2] == Two(h) && s[3..5] == Two(mm) && (s[6..] == "PM" <==> pm)
  {
    var s := ClockText(h, mm, pm);
    assert s[6..] == (if pm then "PM" else "AM");
  }

  lemma ClockTextOfShape(s: string)
    requires ClockShape(s)
    ensures ValueOfTwo(s[..2]) < 100 && ValueOfTwo(s[3..5]) < 100
    ensures s == ClockText(ValueOfTwo(s[..2]), ValueOfTwo(s[3..5]), s[6..] == "PM")
  {
    TwoOfValue(s[..2]);
    TwoOfValue(s[3..5]);
    assert s == s[..2] + [':'] + s[3..5] + [' '] + s[6..];
  }

  /** Every clock value is printed as a text that parses back to it. */
  lemma ParseFormatClock(m: int)
    requires IsClock(m)
    ensures ParseClock(FormatClock(m)) == Some(m)
  {
    var h24, mm := m / 60, m % 60;
    ClockTextParts(Hour12(h24), mm, m >= 720);
    TwoRoundTrip(Hour12(h24));
    TwoRoundTrip(mm);
    Hour24Of12(h24);
  }

  /** Every text that parses is exactly the printed form of its value. */
  lemma FormatParseClock(s: string)
    requires ParseClock(s).Some?
    ensures FormatClock(ParseClock(s).value) == s
  {
    ClockTextOfShape(s);
    var h, mm, pm := ValueOfTwo(s[..2]), ValueOfTwo(s[3..5]), s[6..] == "PM";
    var h24 := Hour24(h, pm);
    var m := ParseClock(s).value;
    assert m == 60 * h24 + mm;
    DivModSixty(h24, mm);
    Hour12Of24(h, pm);
    assert m / 60 == h24 && m % 60 == mm;
    assert Hour12(m / 60) == h;
    assert (m >= 720) == pm;
    assert FormatClock(m) == ClockText(h, mm, pm);
  }

  /** A text read field by field as the parts of the print of `m` is that
      print, and parses back to `m`. */
  lemma ClockLiteral(s: string, m: int)
    requires IsClock(m) && ClockShape(s)
    requires ValueOfTwo(s[..2]) == Hour12(m / 60) && ValueOfTwo(s[3..5]) == m % 60
    requires (s[6..] == "PM") == (m >= 720)
    ensures FormatClock(m) == s && ParseClock(s) == Some(m)
  {
    ClockTextOfShape(s);
    ParseFormatClock(m);
  }

  // ----- the time pickers -----

  /** `timeOptions`: the 96 quarter hours of a day, printed `hh:mm a`. */
  function TimeOptions(): (r: seq<string>)
    ensures |r| == 96
  {
    seq(96, i requires 0 <= i < 96 => FormatClock(15 * i))
  }

  /** Option `i` denotes minute `15 * i` of the day, so the options run in
      time order from "12:00 AM" to "11:45 PM" and no two coincide. */
  lemma TimeOptionsSpec()
    ensures forall i :: 0 <= i < 96 ==> ParseClock(TimeOptions()[i]) == Some(15 * i)
    ensures forall i, j :: 0 <= i < 96 && 0 <= j < 96 && i != j ==> TimeOptions()[i] != TimeOptions()[j]
  {
    var r := TimeOptions();
    forall i | 0 <= i < 96
      ensures ParseClock(r[i]) == Some(15 * i)
    {
      ParseFormatClock(15 * i);
    }
  }

  /** The popup's default start and end, "09:00 AM" and "10:00 AM", are
      options 36 and 40, and the list starts at midnight. */
  lemma DefaultTimesAreOptions()
    ensures TimeOptions()[0] == "12:00 AM"
    ensures TimeOptions()[36] == "09:00 AM"
    ensures TimeOptions()[40] == "10:00 AM"
    ensures TimeOptions()[95] == "11:45 PM"
  {
    var r := TimeOptions();
    assert r[0] == FormatClock(0) && r[36] == FormatClock(540);
    assert r[40] == FormatClock(600) && r[95] == FormatClock(1425);
    ClockLiteral("12:00 AM", 0);
    ClockLiteral("09:00 AM", 540);
    ClockLiteral("10:00 AM", 600);
    ClockLiteral("11:45 PM", 1425);
  }

  // ----- the default end time -----

  /** The end time filled in for an event stored without one: the start text
      read as a time on 2000-01-01 plus 60 minutes, printed `hh:mm AM/PM`
      (an event starting in the last hour of the day ends on the next day,
      which prints the same way); an unreadable start gives "Invalid Date". */
  function OneHourLater(start: string): string {
    match ParseClock(start)
    case None => "Invalid Date"
    case Some(m) => FormatClock((m + 60) % MinutesPerDay)
  }

  /** An unreadable start gives "Invalid Date"; a readable one gives a text
      that reads as the minute one hour later, wrapping past midnight. */
  lemma OneHourLaterSpec(start: string)
    ensures ParseClock(start).None? ==> OneHourLater(start) == "Invalid Date"
    ensures ParseClock(start).Some? ==>
      ParseClock(OneHourLater(start)) == Some((ParseClock(start).value + 60) % MinutesPerDay)
  {
    if ParseClock(start).Some? {
      ParseFormatClock((ParseClock(start).value + 60) % MinutesPerDay);
    }
  }

  /** 09:00 AM is followed by 10:00 AM. */
  lemma OneHourAfterNine()
    ensures OneHourLater("09:00 AM") == "10:00 AM"
  {
    ClockLiteral("09:00 AM", 540);
    ClockLiteral("10:00 AM", 600);
  }

  /** 11:30 PM wraps to 12:30 AM. */
  lemma OneHourAfterLateEvening()
    ensures OneHourLater("11:30 PM") == "12:30 AM"
  {
    ClockLiteral("11:30 PM", 1410);
    ClockLiteral("12:30 AM", 30);
  }

  /** 12:15 PM is followed by 01:15 PM. */
  lemma OneHourAfterNoon()
    ensures OneHourLater("12:15 PM") == "01:15 PM"
  {
    ClockLiteral("12:15 PM", 735);
    ClockLiteral("01:15 PM", 795);
  }

  /** The default end of a printed start time is the time an hour later. */
  lemma OneHourLaterOfClock(m: int)
    requires IsClock(m)
    ensures OneHourLater(FormatClock(m)) == FormatClock((m + 60) % MinutesPerDay)
  {
    ParseFormatClock(m);
  }

  // ----- the duration label -----

  /** `n` and the unit, with an "s" when `n` is more than one. */
  function Counted(n: nat, unit: string): string {
    NatToString(n) + " " + unit + (if n > 1 then "s" else "")
  }

  /** JavaScript's `%`: the remainder takes the sign of the dividend. */
  function JsRem(a: int, b: int): (r: int)
    requires b > 0
    ensures a >= 0 ==> r == a % b
    ensures a < 0 ==> -b < r <= 0
  {
    if a >= 0 then a % b else -((-a) % b)
  }

  /** The label for a difference of `d` minutes: hours `Math.floor(d / 60)`,
      minutes `d % 60`, each shown only when positive. */
  function DurationOfMinutes(d: int): string {
    var hours := d / 60;
    var minutes := JsRem(d, 60);
    (if hours > 0 then Counted(hours, "hour") else "")
    + (if minutes > 0 then " " + Counted(minutes, "minute") else "")
  }

  /** `calculateDuration()`: empty when either time cannot be read (the
      difference is NaN, and no comparison with NaN holds). */
  function DurationText(startTime: string, endTime: string): string {
    match (ParseClock(startTime), ParseClock(endTime))
    case (Some(s), Some(e)) => DurationOfMinutes(e - s)
    case _ => ""
  }

  /** An end at or before the start, or an unreadable time, shows no label. */
  lemma DurationEmpty(startTime: string, endTime: string)
    requires ParseClock(startTime).None? || ParseClock(endTime).None?
             || ParseClock(endTime).value <= ParseClock(startTime).value
    ensures DurationText(startTime, endTime) == ""
  {
    match (ParseClock(startTime), ParseClock(endTime)) {
      case (Some(s), Some(e)) => NoLabelWithoutTime(e - s);
      case _ =>
    }
  }

  lemma NoLabelWithoutTime(d: int)
    requires d <= 0
    ensures DurationOfMinutes(d) == ""
  {
    assert d / 60 <= 0;
  }

  // Reading a label back.

  /** The length of the run of digits at the front of `s`. */
  function DigitRun(s: string): (n: nat)
    ensures n <= |s| && AllDigits(s[..n])
    ensures n < |s| ==> !IsDigit(s[n])
  {
    if s == [] || !IsDigit(s[0]) then 0
    else
      var k := DigitRun(s[1..]);
      assert s[..k + 1] == [s[0]] + s[1..][..k];
      k + 1
  }

  lemma {:induction false} DigitRunOf(ds: string, rest: string)
    requires AllDigits(ds)
    requires rest == [] || !IsDigit(rest[0])
    ensures DigitRun(ds + rest) == |ds|
  {
    if ds != [] {
      assert (ds + rest)[1..] == ds[1..] + rest;
      DigitRunOf(ds[1..], rest);
    } else {
      assert ds + rest == rest;
    }
  }

  /** Reads one part of a label from the front of `s`: a positive count
      without leading zero, a space and the unit, with an "s" exactly when
      the count is more than one, ending where `s` ends or a space follows.
      Gives the count and the rest; None when `s` does not start so. */
  function ReadCounted(s: string, unit: string): Option<(nat, string)> {
    var k := DigitRun(s);
    if k == 0 || s[0] == '0' then None
    else
      var n := ParseNat(s[..k]);
      var word := " " + unit + (if n > 1 then "s" else "");
      var after := s[k..];
      if |word| <= |after| && after[..|word|] == word
         && (|after| == |word| || after[|word|] == ' ')
      then Some((n, after[|word|..]))
      else None
  }

  /** The ` m minute(s)` part, after its space, ending the label: m from 1 to 59. */
  function ReadMinutesPart(s: string): Option<int> {
    match ReadCounted(s, "minute")
    case Some((m, rest)) => if rest == [] && m < 60 then Some(m) else None
    case None => None
  }

  /** The number of minutes a label states, when it is a label: an `h hour`
      part, a ` m minute` part with m below 60, or both, in that order. The
      empty text states no duration. */
  function ReadDuration(s: string): Option<int> {
    if s == [] then None
    else if s[0] == ' ' then ReadMinutesPart(s[1..])
    else
      match ReadCounted(s, "hour")
      case None => None
      case Some((h, rest)) =>
        if rest == [] then Some(60 * h)
        else match ReadMinutesPart(rest[1..])
          case Some(m) => Some(60 * h + m)
          case None => None
  }

  lemma ReadCountedOf(n: nat, unit: string, rest: string)
    requires n > 0
    requires rest == [] || rest[0] == ' '
    ensures ReadCounted(Counted(n, unit) + rest, unit) == Some((n, rest))
  {
    var ds := NatToString(n);
    var word := " " + unit + (if n > 1 then "s" else "");
    var s := Counted(n, unit) + rest;
    assert s == ds + (word + rest);
    DigitRunOf(ds, word + rest);
    assert s[..|ds|] == ds;
    assert ds[0] != '0';
    ParseNatToString(n);
    assert s[|ds|..] == word + rest;
    assert (word + rest)[..|word|] == word;
    assert (word + rest)[|word|..] == rest;
  }

  lemma ReadMinutesPartOf(m: nat)
    requires 0 < m < 60
    ensures ReadMinutesPart(Counted(m, "minute")) == Some(m)
  {
    ReadCountedOf(m, "minute", []);
    assert Counted(m, "minute") + [] == Counted(m, "minute");
  }

  lemma ReadHours(h: nat)
    requires h > 0
    ensures ReadDuration(Counted(h, "hour")) == Some(60 * h)
  {
    var s := Counted(h, "hour");
    ReadCountedOf(h, "hour", []);
    assert s + [] == s;
    assert s[0] == NatToString(h)[0];
  }

  lemma ReadMinutes(m: nat)
    requires 0 < m < 60
    ensures ReadDuration(" " + Counted(m, "minute")) == Some(m)
  {
    ReadMinutesPartOf(m);
    assert (" " + Counted(m, "minute"))[1..] == Counted(m, "minute");
  }

  lemma ReadHoursAndMinutes(h: nat, m: nat)
    requires h > 0 && 0 < m < 60
    ensures ReadDuration(Counted(h, "hour") + (" " + Counted(m, "minute"))) == Some(60 * h + m)
  {
    var mText := " " + Counted(m, "minute");
    var s := Counted(h, "hour") + mText;
    ReadCountedOf(h, "hour", mText);
    assert s[0] == NatToString(h)[0];
    ReadMinutesPartOf(m);
    assert mText[1..] == Counted(m, "minute");
  }

  /** A positive difference is shown as a label the reader accepts, so each
      part appears only with a positive count, an "s" follows a count exactly
      when it is more than one, and the label states exactly that many
      minutes. */
  lemma DurationReadsBack(d: int)
    requires d > 0
    ensures ReadDuration(DurationOfMinutes(d)) == Some(d)
  {
    var hours, minutes := d / 60, d % 60;
    assert d == 60 * hours + minutes;
    if hours > 0 && minutes > 0 {
      assert DurationOfMinutes(d) == Counted(hours, "hour") + (" " + Counted(minutes, "minute"));
      ReadHoursAndMinutes(hours, minutes);
    } else if hours > 0 {
      assert DurationOfMinutes(d) == Counted(hours, "hour") + "";
      assert Counted(hours, "hour") + "" == Counted(hours, "hour");
      ReadHours(hours);
    } else {
      assert DurationOfMinutes(d) == "" + (" " + Counted(minutes, "minute"));
      assert "" + (" " + Counted(minutes, "minute")) == " " + Counted(minutes, "minute");
      ReadMinutes(minutes);
    }
  }

  /** Counts only in the shapes the label uses are read: a zero count, a
      plural after one and a missing plural after two are all refused. */
  lemma ReaderRefusesMisshapenLabels()
    ensures ReadDuration("1 hours").None?
    ensures ReadDuration("2 hour").None?
    ensures ReadDuration("0 hours 30 minutes").None?
    ensures ReadDuration(" 1 minutes").None?
  {
    assert DigitRun("1 hours") == 1;
    assert DigitRun("2 hour") == 1;
    assert "0 hours 30 minutes"[0] == '0';
    assert DigitRun("1 minutes") == 1;
    assert " 1 minutes"[1..] == "1 minutes";
  }

  /** Labels for whole hours and a single minute: the unit takes an "s"
      only past one. */
  lemma HourLabels()
    ensures DurationOfMinutes(60) == "1 hour"
    ensures DurationOfMinutes(120) == "2 hours"
    ensures DurationOfMinutes(61) == "1 hour 1 minute"
  {
    assert Counted(1, "hour") == "1 hour" && Counted(2, "hour") == "2 hours";
    assert Counted(1, "minute") == "1 minute";
  }

  /** Hours and minutes together. */
  lemma MinuteLabels()
    ensures DurationOfMinutes(90) == "1 hour 30 minutes"
  {
    assert Counted(30, "minute") == "30 minutes" by {
      assert NatToString(30) == "30";
    }
  }

  /** A difference below an hour keeps the separating space in front. */
  lemma ShortDurationLabel()
    ensures DurationOfMinutes(45) == " 45 minutes"
  {
    assert Counted(45, "minute") == "45 minutes" by {
      assert NatToString(45) == "45";
    }
  }

  /** The popup's default times give the label "1 hour". */
  lemma DefaultDuration()
    ensures DurationText("09:00 AM", "10:00 AM") == "1 hour"
  {
    ClockLiteral("09:00 AM", 540);
    ClockLiteral("10:00 AM", 600);
    HourLabels();
  }
}
