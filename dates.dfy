/**
 * Release dates: the `'%Y%m%d'` text form read by `strptime` when a movie is
 * posted and written by `strftime` when a movie is formatted. Only the strict
 * eight-digit form is modelled: four digits of year, two of month, two of day.
 */
module Dates {
  import opened Wrappers

  /** A calendar date, as a `Date` column holds it. */
  datatype Date = Date(year: int, month: int, day: int)

  predicate IsLeapYear(y: int) {
    y % 4 == 0 && (y % 100 != 0 || y % 400 == 0)
  }

  function DaysInMonth(y: int, m: int): (n: int)
    requires 1 <= m <= 12
    ensures 28 <= n <= 31
  {
    if m == 2 then (if IsLeapYear(y) then 29 else 28)
    else if m == 4 || m == 6 || m == 9 || m == 11 then 30
    else 31
  }

  /** The dates a `datetime.date` can hold: years 1 to 9999 of the Gregorian calendar. */
  predicate ValidDate(d: Date) {
    && 1 <= d.year <= 9999
    && 1 <= d.month <= 12
    && 1 <= d.day <= DaysInMonth(d.year, d.month)
  }

  predicate IsDigit(c: char) {
    '0' <= c <= '9'
  }

  predicate AllDigits(s: string) {
    forall i :: 0 <= i < |s| ==> IsDigit(s[i])
  }

  function DigitValue(c: char): (n: int)
    requires IsDigit(c)
    ensures 0 <= n < 10
  {
    c as int - '0' as int
  }

  function DigitChar(n: int): (c: char)
    requires 0 <= n < 10
    ensures IsDigit(c) && DigitValue(c) == n
  {
    ('0' as int + n) as char
  }

  function Pow10(w: nat): (p: nat)
    ensures p >= 1
  {
    if w == 0 then 1 else 10 * Pow10(w - 1)
  }

  /** The value of a decimal numeral, most significant digit first. */
  function NumeralValue(s: string): (n: nat)
    requires AllDigits(s)
  {
    if s == [] then 0 else NumeralValue(s[..|s| - 1]) * 10 + DigitValue(s[|s| - 1])
  }

  /** `n` written with exactly `w` decimal digits, padded with zeros on the left. */
  function Numeral(n: nat, w: nat): (s: string)
    ensures |s| == w && AllDigits(s)
  {
    if w == 0 then [] else Numeral(n / 10, w - 1) + [DigitChar(n % 10)]
  }

  /** A numeral wide enough for its number reads back as that number. */
  lemma {:induction false} NumeralValueOfNumeral(n: nat, w: nat)
    requires n < Pow10(w)
    ensures NumeralValue(Numeral(n, w)) == n
  {
    if w > 0 {
      var s := Numeral(n, w);
      assert s[..|s| - 1] == Numeral(n / 10, w - 1);
      NumeralValueOfNumeral(n / 10, w - 1);
    }
  }

  /** Every numeral is the padded rendering of its own value. */
  lemma {:induction false} NumeralOfNumeralValue(s: string)
    requires AllDigits(s)
    ensures Numeral(NumeralValue(s), |s|) == s
  {
    if s != [] {
      var init := s[..|s| - 1];
      NumeralOfNumeralValue(init);
      var n := NumeralValue(s);
      assert n / 10 == NumeralValue(init) && n % 10 == DigitValue(s[|s| - 1]);
      assert s == init + [s[|s| - 1]];
    }
  }

  /** `strptime(s, '%Y%m%d').date()`: the date an eight-digit string names, or None. */
  function ParseDate(s: string): (r: Option<Date>)
    ensures r.Some? ==> ValidDate(r.value) && |s| == 8 && AllDigits(s)
  {
    if |s| == 8 && AllDigits(s) then
      var d := Date(NumeralValue(s[..4]), NumeralValue(s[4..6]), NumeralValue(s[6..]));
      if ValidDate(d) then Some(d) else None
    else
      None
  }

  /** `d.strftime('%Y%m%d')`. */
  function FormatDate(d: Date): (s: string)
    requires ValidDate(d)
    ensures |s| == 8 && AllDigits(s)
  {
    Numeral(d.year, 4) + Numeral(d.month, 2) + Numeral(d.day, 2)
  }

  /** A formatted date parses back to itself. */
  lemma FormatThenParse(d: Date)
    requires ValidDate(d)
    ensures ParseDate(FormatDate(d)) == Some(d)
  {
    var s := FormatDate(d);
    assert s[..4] == Numeral(d.year, 4);
    assert s[4..6] == Numeral(d.month, 2);
    assert s[6..] == Numeral(d.day, 2);
    NumeralValueOfNumeral(d.year, 4);
    NumeralValueOfNumeral(d.month, 2);
    NumeralValueOfNumeral(d.day, 2);
  }

  /** A string that parses is exactly the formatting of the date it names. */
  lemma ParseThenFormat(s: string)
    requires ParseDate(s).Some?
    ensures FormatDate(ParseDate(s).value) == s
  {
    NumeralOfNumeralValue(s[..4]);
    NumeralOfNumeralValue(s[4..6]);
    NumeralOfNumeralValue(s[6..]);
    assert s == s[..4] + s[4..6] + s[6..];
  }
}
