/**
 * The part of .NET `DateTime` the records use: a calendar date, its
 * ordering, the invariant-culture text written to storage and the short
 * date text written to the CSV export.
 */
module Dates {
  import opened Common
  import opened Text

  datatype Date = Date(year: int, month: int, day: int)

  predicate IsLeapYear(y: int) { y % 4 == 0 && (y % 100 != 0 || y % 400 == 0) }

  function DaysInMonth(y: int, m: int): (n: int)
    requires 1 <= m <= 12
    ensures 28 <= n <= 31
  {
    if m == 2 then (if IsLeapYear(y) then 29 else 28)
    else if m == 4 || m == 6 || m == 9 || m == 11 then 30
    else 31
  }

  predicate ValidDate(d: Date) {
    1 <= d.year <= 9999 && 1 <= d.month <= 12 && 1 <= d.day <= DaysInMonth(d.year, d.month)
  }

  /** A `DateTime` value: always a real calendar day between years 1 and 9999. */
  type DateTime = d: Date | ValidDate(d) witness Date(1, 1, 1)

  /** `new DateTime()`, the value a failed parse leaves behind. */
  const MinValue: DateTime := Date(1, 1, 1)

  /** The floor every birthday must lie strictly after. */
  const BirthdayFloor: DateTime := Date(1900, 1, 1)

  /** `DateTime.CompareTo`: -1, 0 or 1, comparing year, then month, then day. */
  function CompareDates(a: Date, b: Date): (c: int)
    ensures -1 <= c <= 1
    ensures c == 0 <==> a == b
    ensures c < 0 <==> a.year < b.year || (a.year == b.year && (a.month < b.month || (a.month == b.month && a.day < b.day)))
  {
    if a.year != b.year then (if a.year < b.year then -1 else 1)
    else if a.month != b.month then (if a.month < b.month then -1 else 1)
    else if a.day != b.day then (if a.day < b.day then -1 else 1)
    else 0
  }

  lemma CompareDatesAntisymmetric(a: Date, b: Date)
    ensures CompareDates(b, a) == -CompareDates(a, b)
  {
  }

  lemma CompareDatesTransitive(a: Date, b: Date, c: Date)
    requires CompareDates(a, b) <= 0 && CompareDates(b, c) <= 0
    ensures CompareDates(a, c) <= 0
  {
  }

  const TimeOfDayText: string := " 00:00:00"

  /** `DateTime.ToShortDateString()` in the invariant culture: MM/dd/yyyy. */
  function ShortDate(d: DateTime): (r: string)
    ensures |r| == 10 && Separator !in r
  {
    Pad(d.month, 2) + "/" + Pad(d.day, 2) + "/" + Pad(d.year, 4)
  }

  /** `DateTime.ToString(CultureInfo.InvariantCulture)`: MM/dd/yyyy HH:mm:ss. */
  function FormatInvariant(d: DateTime): (r: string)
    ensures |r| == 19 && Separator !in r
  {
    ShortDate(d) + TimeOfDayText
  }

  /**
   * `DateTime.Parse` on the invariant culture, reduced to the shapes
   * MM/dd/yyyy and MM/dd/yyyy 00:00:00. `None` stands for the exception it
   * throws on `null`, on malformed text and on a day that does not exist.
   */
  function ParseDate(text: Option<string>): (r: Option<DateTime>)
    ensures r.Some? ==> text.Some? && |text.value| in {10, 19}
  {
    match text
    case None => None
    case Some(s) =>
      if (|s| == 10 || (|s| == 19 && s[10..] == TimeOfDayText))
         && s[2] == '/' && s[5] == '/'
         && AllDigits(s[..2]) && AllDigits(s[3..5]) && AllDigits(s[6..10])
      then
        var d := Date(Value(s[6..10]), Value(s[..2]), Value(s[3..5]));
        if ValidDate(d) then Some(d) else None
      else
        None
  }

  /** The text written to storage parses back to the same date. */
  lemma ParseFormatted(d: DateTime)
    ensures ParseDate(Some(FormatInvariant(d))) == Some(d)
    ensures ParseDate(Some(ShortDate(d))) == Some(d)
  {
    var m, dd, y := Pad(d.month, 2), Pad(d.day, 2), Pad(d.year, 4);
    ValueOfPad(d.month, 2);
    ValueOfPad(d.day, 2);
    ValueOfPad(d.year, 4);
    var short := ShortDate(d);
    assert short[..2] == m && short[3..5] == dd && short[6..10] == y;
    assert short[2] == '/' && short[5] == '/';
    var long := FormatInvariant(d);
    assert long[..10] == short && long[10..] == TimeOfDayText;
    assert long[..2] == m && long[3..5] == dd && long[6..10] == y;
  }

  /** The only texts `ParseDate` accepts are a date's short text and its invariant text. */
  lemma ParsedDateIsFormatted(s: string)
    requires ParseDate(Some(s)).Some?
    ensures var d := ParseDate(Some(s)).value; s == ShortDate(d) || s == FormatInvariant(d)
  {
    var d := ParseDate(Some(s)).value;
    PadOfValue(s[..2]);
    PadOfValue(s[3..5]);
    PadOfValue(s[6..10]);
    var short := ShortDate(d);
    assert short == s[..2] + "/" + s[3..5] + "/" + s[6..10];
    assert s[..10] == short;
    if |s| == 19 {
      assert s == s[..10] + s[10..];
    } else {
      assert s == s[..10];
    }
  }
}
