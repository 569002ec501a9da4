/** Modification dates of gallery files and their `day.month.year` rendering. */
module Dates {

  /** The ranges Python's `datetime` enforces on its fields. */
  type Year = y: int | 1 <= y <= 9999 witness 1
  type Month = m: int | 1 <= m <= 12 witness 1
  type Day = d: int | 1 <= d <= 31 witness 1
  /** Time of day, in microseconds since midnight. */
  type TimeOfDay = t: int | 0 <= t < 86_400_000_000 witness 0

  /** A naive local date and time, as `datetime.fromtimestamp` produces it. */
  datatype DateTime = DateTime(year: Year, month: Month, day: Day, time: TimeOfDay)

  /** Python's `<` on two naive datetimes: lexicographic on (year, month, day, time). */
  predicate Less(a: DateTime, b: DateTime) {
    || a.year < b.year
    || (a.year == b.year && a.month < b.month)
    || (a.year == b.year && a.month == b.month && a.day < b.day)
    || (a.year == b.year && a.month == b.month && a.day == b.day && a.time < b.time)
  }

  lemma LessIsStrictTotalOrder(a: DateTime, b: DateTime, c: DateTime)
    ensures !Less(a, a)
    ensures Less(a, b) ==> !Less(b, a)
    ensures Less(a, b) && Less(b, c) ==> Less(a, c)
    ensures a == b || Less(a, b) || Less(b, a)
  {
  }

  /** `!(b < a)` is transitive: what the sort needs to chain "not after" steps. */
  lemma NotLessTransitive(a: DateTime, b: DateTime, c: DateTime)
    requires !Less(b, a) && !Less(c, b)
    ensures !Less(c, a)
  {
  }

  function Pow10(w: nat): (p: nat)
    ensures p >= 1
  {
    if w == 0 then 1 else 10 * Pow10(w - 1)
  }

  predicate IsDigit(c: char) {
    '0' <= c <= '9'
  }

  function DigitChar(d: nat): (c: char)
    requires d < 10
    ensures IsDigit(c) && c as int - '0' as int == d
  {
    ('0' as int + d) as char
  }

  /** `n` in decimal with exactly `w` digits, zero-padded on the left (`%02d`, `%04d`). */
  function Digits(n: nat, w: nat): string
    requires n < Pow10(w)
  {
    if w == 0 then []
    else
      assert n / 10 < Pow10(w - 1);
      Digits(n / 10, w - 1) + [DigitChar(n % 10)]
  }

  /** The number a string of decimal digits denotes. */
  function Value(s: string): nat
    requires forall i :: 0 <= i < |s| ==> IsDigit(s[i])
  {
    if s == [] then 0
    else
      assert IsDigit(s[|s| - 1]);
      10 * Value(s[..|s| - 1]) + (s[|s| - 1] as int - '0' as int)
  }

  /** Reading back a zero-padded rendering gives the number that was written: the rendering is
      all decimal digits, and their value is `n`. */
  lemma {:induction false} ValueOfDigits(n: nat, w: nat)
    requires n < Pow10(w)
    ensures forall i :: 0 <= i < |Digits(n, w)| ==> IsDigit(Digits(n, w)[i])
    ensures Value(Digits(n, w)) == n
  {
    if w > 0 {
      assert n / 10 < Pow10(w - 1);
      var s := Digits(n, w);
      ValueOfDigits(n / 10, w - 1);
      assert s == Digits(n / 10, w - 1) + [DigitChar(n % 10)];
      assert s[..|s| - 1] == Digits(n / 10, w - 1);
    }
  }

  /** A zero-padded rendering has exactly the requested width. */
  lemma {:induction false} DigitsLength(n: nat, w: nat)
    requires n < Pow10(w)
    ensures |Digits(n, w)| == w
  {
    if w > 0 {
      assert n / 10 < Pow10(w - 1);
      DigitsLength(n / 10, w - 1);
    }
  }

  /** `date.strftime("%d.%m.%Y")`: two-digit day, two-digit month, four-digit year. */
  function FormatDate(d: DateTime): string {
    Digits(d.day, 2) + "." + Digits(d.month, 2) + "." + Digits(d.year, 4)
  }

  /** Two-digit zero padding, digit by digit. */
  lemma TwoDigits(n: nat)
    requires n < 100
    ensures Digits(n, 2) == [DigitChar(n / 10), DigitChar(n % 10)]
  {
    assert Digits(n / 10, 1) == [DigitChar(n / 10)] by {
      assert Digits(n / 10 / 10, 0) == [];
    }
  }

  /** Four-digit zero padding, digit by digit. */
  lemma FourDigits(n: nat)
    requires n < 10000
    ensures Digits(n, 4) == [DigitChar(n / 1000), DigitChar(n / 100 % 10), DigitChar(n / 10 % 10), DigitChar(n % 10)]
  {
    var m := n / 100;
    TwoDigits(m);
    assert n / 10 / 10 == m;
    assert Digits(n / 10, 3) == Digits(m, 2) + [DigitChar(n / 10 % 10)];
    assert m / 10 == n / 1000 && m % 10 == n / 100 % 10;
  }

  /** The exact ten characters `strftime("%d.%m.%Y")` writes for a date. */
  lemma FormatDateChars(d: DateTime)
    ensures FormatDate(d) == [
      DigitChar(d.day / 10), DigitChar(d.day % 10), '.',
      DigitChar(d.month / 10), DigitChar(d.month % 10), '.',
      DigitChar(d.year / 1000), DigitChar(d.year / 100 % 10), DigitChar(d.year / 10 % 10), DigitChar(d.year % 10)]
  {
    TwoDigits(d.day);
    TwoDigits(d.month);
    FourDigits(d.year);
  }

  predicate IsFormattedDate(s: string) {
    && |s| == 10 && s[2] == '.' && s[5] == '.'
    && forall i :: 0 <= i < 10 && i != 2 && i != 5 ==> IsDigit(s[i])
  }

  /** The (day, month, year) a `dd.mm.yyyy` string names. */
  function ParseDate(s: string): (int, int, int)
    requires IsFormattedDate(s)
  {
    (Value(s[0..2]), Value(s[3..5]), Value(s[6..10]))
  }

  /** Where each field sits in the text: day, dot, month, dot, year. */
  lemma FormatDateFields(d: DateTime)
    ensures |FormatDate(d)| == 10 && FormatDate(d)[2] == '.' && FormatDate(d)[5] == '.'
    ensures FormatDate(d)[0..2] == Digits(d.day, 2)
    ensures FormatDate(d)[3..5] == Digits(d.month, 2)
    ensures FormatDate(d)[6..10] == Digits(d.year, 4)
  {
    DigitsLength(d.day, 2);
    DigitsLength(d.month, 2);
    DigitsLength(d.year, 4);
    var s := FormatDate(d);
    var dd, mm, yyyy := Digits(d.day, 2), Digits(d.month, 2), Digits(d.year, 4);
    assert s == dd + "." + mm + "." + yyyy;
    assert s[0..2] == dd;
    assert s[3..5] == mm;
    assert s[6..10] == yyyy;
  }

  /** FormatDate loses exactly the time of day: parsing its text gives back the calendar day. */
  lemma FormatDateRoundTrip(d: DateTime)
    ensures IsFormattedDate(FormatDate(d))
    ensures ParseDate(FormatDate(d)) == (d.day as int, d.month as int, d.year as int)
  {
    var s := FormatDate(d);
    FormatDateFields(d);
    ValueOfDigits(d.day, 2);
    ValueOfDigits(d.month, 2);
    ValueOfDigits(d.year, 4);
    forall i | 0 <= i < 10 && i != 2 && i != 5
      ensures IsDigit(s[i])
    {
      if i < 2 {
        assert s[i] == s[0..2][i];
      } else if i < 5 {
        assert s[i] == s[3..5][i - 3];
      } else {
        assert s[i] == s[6..10][i - 6];
      }
    }
  }

  /** Two dates get the same text exactly when they fall on the same calendar day. */
  lemma FormatDateSameDay(a: DateTime, b: DateTime)
    ensures FormatDate(a) == FormatDate(b) <==> (a.day, a.month, a.year) == (b.day, b.month, b.year)
  {
    FormatDateRoundTrip(a);
    FormatDateRoundTrip(b);
  }
}
