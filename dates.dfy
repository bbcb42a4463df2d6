/** Calendar dates, the strict `%m/%d/%Y` parse pandas performs first, the
    three-step date resolution of the file processor, and the
    `%Y%m%d_%H%M%S` stamp used for archive names. */
module Dates {
  import opened Text

  datatype Date = Date(year: nat, month: nat, day: nat)

  /** What a pandas date conversion yields: a calendar day, or `NaT`
      ("not a time"), which pandas returns for missing-value markers. */
  datatype DateValue = Day(date: Date) | NaT

  predicate IsLeapYear(y: nat) {
    y % 4 == 0 && (y % 100 != 0 || y % 400 == 0)
  }

  function DaysInMonth(y: nat, m: nat): (n: nat)
    requires 1 <= m <= 12
    ensures 28 <= n <= 31
    ensures n == 29 <==> m == 2 && IsLeapYear(y)
  {
    if m == 2 then (if IsLeapYear(y) then 29 else 28)
    else if m == 4 || m == 6 || m == 9 || m == 11 then 30
    else 31
  }

  predicate IsCalendarDate(d: Date) {
    1 <= d.month <= 12 && 1 <= d.day <= DaysInMonth(d.year, d.month)
  }

  predicate Before(a: Date, b: Date) {
    a.year < b.year ||
    (a.year == b.year && (a.month < b.month || (a.month == b.month && a.day < b.day)))
  }

  /** The whole days a pandas nanosecond `Timestamp` can hold: its minimum
      lies a few minutes into 1677-09-21 and its maximum late on 2262-04-11. */
  predicate InTimestampRange(d: Date) {
    !Before(d, Date(1677, 9, 22)) && !Before(Date(2262, 4, 11), d)
  }

  /** Strings pandas' strptime turns into `NaT` instead of raising: the empty
      string and its missing-value spellings (`str` of a missing cell is "nan"). */
  const NaTStrings: set<string> := {"", "NaT", "nat", "NAT", "nan", "NaN", "NAN"}

  /** Index of the first '/' in `s`, or `|s|` when there is none. */
  function SlashIndex(s: string): (r: nat)
    ensures r <= |s|
    ensures forall k :: 0 <= k < r ==> s[k] != '/'
    ensures r < |s| ==> s[r] == '/'
  {
    if s == [] || s[0] == '/' then 0 else 1 + SlashIndex(s[1..])
  }

  /** `%m`: one or two digits denoting 1..12. */
  predicate MonthToken(m: string) {
    1 <= |m| <= 2 && AllDigits(m) && 1 <= DigitsValue(m) <= 12
  }

  /** `%d`: one or two digits denoting 1..31, or a space and a nonzero digit. */
  predicate DayToken(d: string) {
    (1 <= |d| <= 2 && AllDigits(d) && 1 <= DigitsValue(d) <= 31) ||
    (|d| == 2 && d[0] == ' ' && '1' <= d[1] <= '9')
  }

  function DayTokenValue(d: string): nat
    requires DayToken(d)
  {
    if d[0] == ' ' then DigitValue(d[1]) else DigitsValue(d)
  }

  /** `%Y`: exactly four digits. */
  predicate YearToken(y: string) {
    |y| == 4 && AllDigits(y)
  }

  /** `pd.to_datetime(s, format='%m/%d/%Y')`: `None` where pandas raises. The
      whole string must match; the day must exist in that month (leap years
      included) and the date must fit a pandas Timestamp. */
  function ParseMonthDayYear(s: string): (r: Option<DateValue>)
    ensures r == Some(NaT) <==> s in NaTStrings
    ensures r.Some? && r.value.Day? ==>
              IsCalendarDate(r.value.date) && InTimestampRange(r.value.date)
  {
    if s in NaTStrings then Some(NaT)
    else
      var i := SlashIndex(s);
      if i == |s| then None
      else
        var month := s[..i];
        var rest := s[i + 1..];
        var j := SlashIndex(rest);
        if j == |rest| then None
        else
          var day := rest[..j];
          var year := rest[j + 1..];
          if !(MonthToken(month) && DayToken(day) && YearToken(year)) then None
          else
            var d := Date(DigitsValue(year), DigitsValue(month), DayTokenValue(day));
            if IsCalendarDate(d) && InTimestampRange(d) then Some(Day(d)) else None
  }

  /** The canonical `MM/DD/YYYY` spelling of a date. */
  function FormatMonthDayYear(d: Date): string {
    Padded(d.month, 2) + "/" + Padded(d.day, 2) + "/" + Padded(d.year, 4)
  }

  /** A date spelled `MM/DD/YYYY` with a month and day in the ranges `%m`
      and `%d` accept is read back exactly when it is a real calendar day
      that pandas can hold; otherwise the strict parse raises. */
  lemma ParseFormatted(d: Date)
    requires 1 <= d.month <= 12 && 1 <= d.day <= 31 && d.year < 10000
    ensures ParseMonthDayYear(FormatMonthDayYear(d)) ==
              if IsCalendarDate(d) && InTimestampRange(d) then Some(Day(d)) else None
  {
    var m, dd, y := Padded(d.month, 2), Padded(d.day, 2), Padded(d.year, 4);
    var s := FormatMonthDayYear(d);
    assert s == m + "/" + dd + "/" + y;
    assert |s| == 10;
    assert s !in NaTStrings;
    assert s[2] == '/' && IsDigit(s[0]) && IsDigit(s[1]);
    assert SlashIndex(s) == 2;
    assert s[..2] == m;
    var rest := s[3..];
    assert rest == dd + "/" + y;
    assert rest[2] == '/' && IsDigit(rest[0]) && IsDigit(rest[1]);
    assert SlashIndex(rest) == 2;
    assert rest[..2] == dd;
    assert rest[3..] == y;
    assert Pow10(2) == 100 && Pow10(4) == 10000;
    PaddedValue(d.month, 2);
    PaddedValue(d.day, 2);
    PaddedValue(d.year, 4);
    assert MonthToken(m) && DayToken(dd) && YearToken(y);
    assert DayTokenValue(dd) == d.day;
  }

  /** Every date pandas can hold is read back from its `MM/DD/YYYY` spelling. */
  lemma ParseFormattedValid(d: Date)
    requires IsCalendarDate(d) && InTimestampRange(d)
    ensures ParseMonthDayYear(FormatMonthDayYear(d)) == Some(Day(d))
  {
    ParseFormatted(d);
  }

  /** The processor's date chain: the strict `%m/%d/%Y` parse, then the
      free-form parse `freeForm`, then `today`. `NaT` comes back only for a
      missing-value marker, which the strict parse accepts without raising. */
  function ResolveDate(s: string, freeForm: string -> Option<Date>, today: Date): (r: DateValue)
    ensures r == NaT <==> s in NaTStrings
    ensures ParseMonthDayYear(s).Some? ==> r == ParseMonthDayYear(s).value
    ensures ParseMonthDayYear(s).None? && freeForm(s).Some? ==> r == Day(freeForm(s).value)
    ensures ParseMonthDayYear(s).None? && freeForm(s).None? ==> r == Day(today)
  {
    match ParseMonthDayYear(s)
    case Some(v) => v
    case None =>
      match freeForm(s)
      case Some(d) => Day(d)
      case None => Day(today)
  }

  /** A well-formed `MM/DD/YYYY` cell is taken as written: neither the
      free-form parser nor the clock is consulted. */
  lemma ResolveFormatted(d: Date, freeForm: string -> Option<Date>, today: Date)
    requires IsCalendarDate(d) && InTimestampRange(d)
    ensures ResolveDate(FormatMonthDayYear(d), freeForm, today) == Day(d)
  {
    ParseFormattedValid(d);
  }

  /** `02/29/YYYY` is read as written exactly in leap years; in other years
      the strict parse raises and the row falls through to the other parsers. */
  lemma LeapDay(year: nat)
    requires 1678 <= year <= 2261
    ensures ParseMonthDayYear(FormatMonthDayYear(Date(year, 2, 29))).Some? <==> IsLeapYear(year)
  {
    ParseFormatted(Date(year, 2, 29));
  }

  datatype DateTime = DateTime(date: Date, hour: nat, minute: nat, second: nat)

  /** `strftime("%Y%m%d_%H%M%S")`: fifteen characters, digits around an underscore. */
  function StampText(t: DateTime): (r: string)
    ensures |r| == 15 && r[8] == '_'
    ensures forall i :: 0 <= i < 15 && i != 8 ==> IsDigit(r[i])
  {
    Padded(t.date.year, 4) + Padded(t.date.month, 2) + Padded(t.date.day, 2) + "_" +
    Padded(t.hour, 2) + Padded(t.minute, 2) + Padded(t.second, 2)
  }

  /** Where the six fields sit in a stamp. */
  lemma StampPieces(y: string, mo: string, d: string, h: string, mi: string, s: string)
    requires |y| == 4 && |mo| == 2 && |d| == 2 && |h| == 2 && |mi| == 2 && |s| == 2
    ensures var r := y + mo + d + "_" + h + mi + s;
            r[..4] == y && r[4..6] == mo && r[6..8] == d &&
            r[9..11] == h && r[11..13] == mi && r[13..15] == s
  {
  }

  /** The stamp spells the clock reading: read back field by field, its
      digit groups give the year, month, day, hour, minute and second. */
  lemma StampTextFields(t: DateTime)
    requires t.date.year < 10000 && t.date.month < 100 && t.date.day < 100
    requires t.hour < 100 && t.minute < 100 && t.second < 100
    ensures var r := StampText(t);
            DigitsValue(r[..4]) == t.date.year && DigitsValue(r[4..6]) == t.date.month &&
            DigitsValue(r[6..8]) == t.date.day && DigitsValue(r[9..11]) == t.hour &&
            DigitsValue(r[11..13]) == t.minute && DigitsValue(r[13..15]) == t.second
  {
    var r := StampText(t);
    assert Pow10(2) == 100 && Pow10(4) == 10000;
    var y, mo, d := Padded(t.date.year, 4), Padded(t.date.month, 2), Padded(t.date.day, 2);
    var h, mi, s := Padded(t.hour, 2), Padded(t.minute, 2), Padded(t.second, 2);
    StampPieces(y, mo, d, h, mi, s);
    PaddedValue(t.date.year, 4);
    PaddedValue(t.date.month, 2);
    PaddedValue(t.date.day, 2);
    PaddedValue(t.hour, 2);
    PaddedValue(t.minute, 2);
    PaddedValue(t.second, 2);
  }
}
