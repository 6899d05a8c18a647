/** Calendar dates as the backend writes and reads them: Python's
    `date.isoformat()` and `datetime.strptime(s, "%Y-%m-%d")`, over dates in
    Python's range of years 1 to 9999. */
module IsoDates {
  import opened Wrappers
  import opened Text
  import opened Calendar

  /** A value of Python's `date` type. */
  predicate PyDate(d: Date) {
    1 <= d.year <= 9999 && ValidDate(d)
  }

  /** `d.isoformat()`: `YYYY-MM-DD`, each part zero-padded. */
  function IsoFormat(d: Date): (s: string)
    requires PyDate(d)
    ensures |s| == 10
  {
    PartsFit(d);
    PaddedNumber(d.year, 4);
    PaddedNumber(d.month, 2);
    PaddedNumber(d.day, 2);
    PadStart(NatToString(d.year), 4, '0') + "-" + PadStart(NatToString(d.month), 2, '0') + "-"
      + PadStart(NatToString(d.day), 2, '0')
  }

  /** `strptime(s, "%Y-%m-%d")` on the ten-character form: four, two and
      two digits separated by '-', naming a real date. */
  function ParseIsoDate(s: string): (r: Option<Date>)
    ensures r.Some? ==> PyDate(r.value)
  {
    if |s| == 10 && s[4] == '-' && s[7] == '-'
       && AllDigits(s[..4]) && AllDigits(s[5..7]) && AllDigits(s[8..])
    then
      var d := Date(DigitsValue(s[..4]), DigitsValue(s[5..7]), DigitsValue(s[8..]));
      if PyDate(d) then Some(d) else None
    else None
  }

  /** A number below `10^width`, zero-padded to `width`, is `width` digits
      denoting the number. */
  lemma PaddedNumber(n: nat, width: nat)
    requires 1 <= width && n < Pow10(width)
    ensures var p := PadStart(NatToString(n), width, '0');
            |p| == width && AllDigits(p) && DigitsValue(p) == n
  {
    NatToStringLength(n, width);
    ZeroPaddingValue(NatToString(n), width);
    NatToStringRoundTrip(n);
  }

  /** Parsing reads the three parts of `YYYY-MM-DD` back. */
  lemma ParseParts(y: string, m: string, d: string, date: Date)
    requires |y| == 4 && |m| == 2 && |d| == 2 && AllDigits(y) && AllDigits(m) && AllDigits(d)
    requires date == Date(DigitsValue(y), DigitsValue(m), DigitsValue(d)) && PyDate(date)
    ensures ParseIsoDate(y + "-" + m + "-" + d) == Some(date)
  {
    var s := y + "-" + m + "-" + d;
    assert s[..4] == y && s[5..7] == m && s[8..] == d;
  }

  /** Every part of a date fits its field of `YYYY-MM-DD`. */
  lemma PartsFit(d: Date)
    requires PyDate(d)
    ensures d.year < Pow10(4) && d.month < Pow10(2) && d.day < Pow10(2)
  {
    assert d.day <= DaysInMonth(d.year, d.month) <= 31;
    assert Pow10(2) == 100 && Pow10(4) == 10000;
  }

  /** Parsing what `isoformat` writes gives the date back. */
  lemma ParseFormatRoundTrip(d: Date)
    requires PyDate(d)
    ensures ParseIsoDate(IsoFormat(d)) == Some(d)
  {
    PartsFit(d);
    PaddedNumber(d.year, 4);
    PaddedNumber(d.month, 2);
    PaddedNumber(d.day, 2);
    ParseParts(PadStart(NatToString(d.year), 4, '0'), PadStart(NatToString(d.month), 2, '0'),
               PadStart(NatToString(d.day), 2, '0'), d);
  }

  /** `date.replace(year=y)`: the same month and day in year `y`, which fails
      (`ValueError`) for 29 February in a common year and outside years 1 to 9999. */
  function ReplaceYear(d: Date, y: int): (r: Option<Date>)
    ensures r.Some? ==> PyDate(r.value) && r.value.month == d.month && r.value.day == d.day && r.value.year == y
  {
    var moved := Date(y, d.month, d.day);
    if PyDate(moved) then Some(moved) else None
  }

  /** Within Python's years, moving a valid date fails only for 29 February
      of a common year. */
  lemma ReplaceYearFailsOnlyOnLeapDay(d: Date, y: int)
    requires PyDate(d) && 1 <= y <= 9999
    ensures ReplaceYear(d, y).None? <==> d.month == 2 && d.day == 29 && !IsLeap(y)
  {
  }
}
