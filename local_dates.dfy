/**
 * java.time.LocalDate as the scraper uses it: parsing "dd.MM.yyyy" with
 * DateTimeFormatter's default SMART resolver, and LocalDate.toString's
 * ISO form "yyyy-MM-dd" for the CSV export.
 */
module LocalDates {
  import opened Wrappers
  import opened JavaText

  datatype Date = Date(year: int, month: nat, day: nat)

  /** The proleptic Gregorian leap-year rule of IsoChronology. */
  predicate IsLeapYear(y: int) {
    y % 4 == 0 && (y % 100 != 0 || y % 400 == 0)
  }

  function MonthLength(year: int, month: int): (n: int)
    requires 1 <= month <= 12
    ensures 28 <= n <= 31
  {
    if month == 2 then (if IsLeapYear(year) then 29 else 28)
    else if month == 4 || month == 6 || month == 9 || month == 11 then 30
    else 31
  }

  predicate IsValidDate(d: Date) {
    1 <= d.month <= 12 && 1 <= d.day <= MonthLength(d.year, d.month)
  }

  /** Two ASCII digits read at position `i`. */
  function TwoDigits(s: string, i: nat): (v: nat)
    requires i + 2 <= |s| && IsAsciiDigit(s[i]) && IsAsciiDigit(s[i + 1])
    ensures v < 100
  {
    10 * DigitValue(s[i]) + DigitValue(s[i + 1])
  }

  /** The syntax of "dd.MM.yyyy": ten characters, ASCII digits around two dots. */
  predicate IsDottedShape(s: string) {
    |s| == 10 && s[2] == '.' && s[5] == '.' &&
    IsAsciiDigit(s[0]) && IsAsciiDigit(s[1]) && IsAsciiDigit(s[3]) && IsAsciiDigit(s[4]) &&
    IsAsciiDigit(s[6]) && IsAsciiDigit(s[7]) && IsAsciiDigit(s[8]) && IsAsciiDigit(s[9])
  }

  /**
   * LocalDate.parse(s, ofPattern("dd.MM.yyyy")): the fields are range-checked
   * (day 1..31, month 1..12, year-of-era 1..9999) and a day past the end of its
   * month is moved back to the month's last day, as the SMART resolver does;
   * every other input is a DateTimeParseException (None).
   */
  function ParseDotted(s: string): (r: Option<Date>)
    ensures r.Some? ==> IsDottedShape(s) && IsValidDate(r.value) && 1 <= r.value.year <= 9999
    ensures r.Some? ==> r.value.month == TwoDigits(s, 3) && r.value.year == 100 * TwoDigits(s, 6) + TwoDigits(s, 8)
    ensures r.Some? ==> r.value.day <= TwoDigits(s, 0)
    ensures r.Some? && TwoDigits(s, 0) <= MonthLength(r.value.year, r.value.month) ==> r.value.day == TwoDigits(s, 0)
    ensures IsDottedShape(s) ==>
              (r.Some? <==> 1 <= TwoDigits(s, 0) <= 31 && 1 <= TwoDigits(s, 3) <= 12 &&
                             100 * TwoDigits(s, 6) + TwoDigits(s, 8) >= 1)
  {
    if !IsDottedShape(s) then None
    else
      var day := TwoDigits(s, 0);
      var month := TwoDigits(s, 3);
      var year := 100 * TwoDigits(s, 6) + TwoDigits(s, 8);
      if day < 1 || day > 31 || month < 1 || month > 12 || year < 1 then None
      else
        var last := MonthLength(year, month);
        Some(Date(year, month, if day > last then last else day))
  }

  /** The `width` low decimal digits of `n`, zero-padded. */
  function PadDigits(n: nat, width: nat): (s: string)
    ensures |s| == width && AllDigits(s)
  {
    if width == 0 then [] else PadDigits(n / 10, width - 1) + [DigitChar(n % 10)]
  }

  /** DateTimeFormatter.ofPattern("dd.MM.yyyy").format for a year of at most four digits. */
  function FormatDotted(d: Date): (s: string)
    requires 0 <= d.year <= 9999
    ensures |s| == 10
  {
    PadDigits(d.day, 2) + "." + PadDigits(d.month, 2) + "." + PadDigits(d.year, 4)
  }

  lemma TwoDigitsOfPad(n: nat, s: string, i: nat)
    requires n < 100 && i + 2 <= |s| && s[i..i + 2] == PadDigits(n, 2)
    ensures IsAsciiDigit(s[i]) && IsAsciiDigit(s[i + 1]) && TwoDigits(s, i) == n
  {
    var p := PadDigits(n, 2);
    assert p[1] == DigitChar(n % 10) && p[0] == DigitChar((n / 10) % 10);
    assert s[i] == p[0] && s[i + 1] == p[1];
  }

  lemma PadTwoChars(n: nat)
    ensures PadDigits(n, 2) == [DigitChar((n / 10) % 10), DigitChar(n % 10)]
  {
    assert PadDigits(n, 2) == PadDigits(n / 10, 1) + [DigitChar(n % 10)];
  }

  /** Four padded digits are the padded hundreds followed by the padded remainder. */
  lemma YearHalves(y: nat)
    ensures PadDigits(y, 4) == PadDigits(y / 100, 2) + PadDigits(y % 100, 2)
  {
    assert PadDigits(y, 4) == PadDigits(y / 10, 3) + [DigitChar(y % 10)];
    assert PadDigits(y / 10, 3) == PadDigits(y / 10 / 10, 2) + [DigitChar((y / 10) % 10)];
    assert y / 10 / 10 == y / 100;
    PadTwoChars(y % 100);
    LowDigitsAgree(y);
  }

  lemma LowDigitsAgree(y: nat)
    ensures (y % 100) / 10 % 10 == (y / 10) % 10 && (y % 100) % 10 == y % 10
  {
  }

  /** Where each field of the "dd.MM.yyyy" text sits. */
  lemma DottedLayout(d: Date)
    requires 0 <= d.year <= 9999
    ensures var s := FormatDotted(d);
            s[0..2] == PadDigits(d.day, 2) && s[2] == '.' && s[3..5] == PadDigits(d.month, 2) && s[5] == '.' &&
            s[6..10] == PadDigits(d.year, 4)
  {
  }

  /** The formatted text has the pattern's shape and its fields read back as the date's. */
  lemma FormattedFields(d: Date)
    requires IsValidDate(d) && 1 <= d.year <= 9999
    ensures IsDottedShape(FormatDotted(d))
    ensures TwoDigits(FormatDotted(d), 0) == d.day && TwoDigits(FormatDotted(d), 3) == d.month
    ensures 100 * TwoDigits(FormatDotted(d), 6) + TwoDigits(FormatDotted(d), 8) == d.year
  {
    var s := FormatDotted(d);
    var y: nat := d.year;
    DottedLayout(d);
    YearHalves(y);
    YearFieldsAt(s, y);
    TwoDigitsOfPad(d.day, s, 0);
    TwoDigitsOfPad(d.month, s, 3);
    TwoDigitsOfPad(y / 100, s, 6);
    TwoDigitsOfPad(y % 100, s, 8);
  }

  lemma YearFieldsAt(s: string, y: nat)
    requires |s| == 10 && s[6..10] == PadDigits(y / 100, 2) + PadDigits(y % 100, 2)
    ensures s[6..8] == PadDigits(y / 100, 2) && s[8..10] == PadDigits(y % 100, 2)
  {
    assert s[6..8] == s[6..10][..2];
    assert s[8..10] == s[6..10][2..];
  }

  /** Every date the pattern can hold survives formatting and parsing unchanged. */
  lemma ParseFormatDotted(d: Date)
    requires IsValidDate(d) && 1 <= d.year <= 9999
    ensures ParseDotted(FormatDotted(d)) == Some(d)
  {
    FormattedFields(d);
  }

  /** LocalDate.toString: the year padded to four digits (signed when it has more), then "-MM-dd". */
  function IsoString(d: Date): (s: string)
  {
    var year :=
      if -1000 < d.year < 0 then "-" + PadDigits(-d.year, 4)
      else if 0 <= d.year < 1000 then PadDigits(d.year, 4)
      else if d.year > 9999 then "+" + IntToString(d.year)
      else IntToString(d.year);
    year + "-" + PadDigits(d.month, 2) + "-" + PadDigits(d.day, 2)
  }

  lemma IsoStringShape(d: Date)
    requires IsValidDate(d) && 1 <= d.year <= 9999
    ensures IsoString(d) == PadDigits(d.year, 4) + "-" + PadDigits(d.month, 2) + "-" + PadDigits(d.day, 2)
    ensures |IsoString(d)| == 10
  {
    if d.year >= 1000 {
      FourDigitYear(d.year);
    }
  }

  /** A year of four digits prints as its four padded digits. */
  lemma FourDigitYear(y: nat)
    requires 1000 <= y <= 9999
    ensures NatToString(y) == PadDigits(y, 4)
  {
    ThreeDigitNumber(y / 10);
    assert NatToString(y) == NatToString(y / 10) + [DigitChar(y % 10)];
  }

  lemma ThreeDigitNumber(n: nat)
    requires 100 <= n <= 999
    ensures NatToString(n) == PadDigits(n, 3)
  {
    TwoDigitNumber(n / 10);
    assert NatToString(n) == NatToString(n / 10) + [DigitChar(n % 10)];
  }

  lemma TwoDigitNumber(n: nat)
    requires 10 <= n <= 99
    ensures NatToString(n) == PadDigits(n, 2)
  {
    assert NatToString(n) == NatToString(n / 10) + [DigitChar(n % 10)];
    assert PadDigits(n / 10, 1) == PadDigits(n / 100, 0) + [DigitChar((n / 10) % 10)];
  }
}
