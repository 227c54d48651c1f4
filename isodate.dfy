/** The `yyyy-MM-dd` form of a calendar date, as date-fns `format` writes it
    and `parseISO` reads it back (the extended calendar-date form of
    ISO 8601:2004 section 4.1.2.2). */
module IsoDate {
  import opened Text
  import opened Dates
  import opened Outcomes

  /** The `yyyy` field: date-fns prints the era year (year 0 is 1 BC, shown
      as 1), zero-padded to at least four digits. */
  function YearText(y: int): string {
    var era := if y > 0 then y else 1 - y;
    if era < 10000 then Four(era) else NatToString(era)
  }

  /** date-fns `format(d, 'yyyy-MM-dd')`. */
  function FormatYmd(d: Date): (s: string)
    requires Valid(d)
    ensures 1 <= d.year <= 9999 ==> |s| == 10 && s[4] == '-' && s[7] == '-'
  {
    YearText(d.year) + "-" + Two(d.month) + "-" + Two(d.day)
  }

  /** date-fns `parseISO` on a calendar date `YYYY-MM-DD`: `None` stands for
      the Invalid Date it returns on text of another shape or a day that does
      not exist. */
  function ParseIsoDate(s: string): (r: Option<Date>)
    ensures r.Some? ==> Valid(r.value) && 0 <= r.value.year <= 9999
  {
    if |s| == 10 && AllDigits(s[..4]) && s[4] == '-' && AllDigits(s[5..7]) && s[7] == '-'
       && AllDigits(s[8..])
    then
      var d := Date(ValueOfFour(s[..4]), ValueOfTwo(s[5..7]), ValueOfTwo(s[8..]));
      FourOfValue(s[..4]);
      if Valid(d) then Some(d) else None
    else None
  }

  /** A date written by `FormatYmd` reads back as the same calendar day. */
  lemma ParseFormatRoundTrip(d: Date)
    requires Valid(d) && 1 <= d.year <= 9999
    ensures ParseIsoDate(FormatYmd(d)) == Some(d)
  {
    var s := FormatYmd(d);
    assert s[..4] == Four(d.year);
    assert s[5..7] == Two(d.month);
    assert s[8..] == Two(d.day);
    FourRoundTrip(d.year);
    TwoRoundTrip(d.month);
    TwoRoundTrip(d.day);
  }

  /** Text that parses to a date of the common era is exactly what
      `FormatYmd` writes for that date. */
  lemma FormatParseRoundTrip(s: string)
    requires ParseIsoDate(s).Some? && ParseIsoDate(s).value.year >= 1
    ensures FormatYmd(ParseIsoDate(s).value) == s
  {
    var d := ParseIsoDate(s).value;
    FourOfValue(s[..4]);
    TwoOfValue(s[5..7]);
    TwoOfValue(s[8..]);
    assert s == s[..4] + "-" + s[5..7] + "-" + s[8..];
  }

  /** Year 0 is accepted by the parser but printed as the era year 1, so the
      two directions agree only from year 1 on. */
  lemma YearZeroIsNotRestored()
    ensures ParseIsoDate("0000-01-01") == Some(Date(0, 1, 1))
    ensures FormatYmd(Date(0, 1, 1)) == "0001-01-01"
  {
    var s := "0000-01-01";
    assert s[..4] == "0000" && s[5..7] == "01" && s[8..] == "01";
  }
}
