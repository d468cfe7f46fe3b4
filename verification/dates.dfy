/**
 * Calendar dates as the quota table stores them: `date.strftime('%Y-%m-%d')`
 * when saving and `datetime.strptime(s, '%Y-%m-%d').date()` when loading.
 */
module Dates {
  import opened Wrappers
  import opened Text

  /** A `datetime.date`. */
  datatype Date = Date(year: int, month: int, day: int)

  predicate IsLeap(y: int) {
    y % 4 == 0 && (y % 100 != 0 || y % 400 == 0)
  }

  function DaysInMonth(y: int, m: int): int {
    if m == 2 then (if IsLeap(y) then 29 else 28)
    else if m == 4 || m == 6 || m == 9 || m == 11 then 30
    else 31
  }

  /** A date `datetime.date` accepts: years 1 to 9999, a real month and a day of it. */
  predicate ValidDate(d: Date) {
    1 <= d.year <= 9999 && 1 <= d.month <= 12 && 1 <= d.day <= DaysInMonth(d.year, d.month)
  }

  /** Chronological order. */
  predicate DateLe(a: Date, b: Date) {
    a.year < b.year || (a.year == b.year && (a.month < b.month || (a.month == b.month && a.day <= b.day)))
  }

  // ----- Digits ------------------------------------------------------------

  predicate IsDigit(c: char) {
    '0' <= c <= '9'
  }

  function DigitChar(n: int): (c: char)
    requires 0 <= n <= 9
    ensures IsDigit(c)
  {
    ('0' as int + n) as char
  }

  function DigitValue(c: char): (n: int)
    requires IsDigit(c)
    ensures 0 <= n <= 9
  {
    c as int - '0' as int
  }

  /** Two digits, zero-padded. */
  function Pad2(n: int): (s: string)
    requires 0 <= n <= 99
    ensures |s| == 2 && IsDigit(s[0]) && IsDigit(s[1])
  {
    [DigitChar(n / 10), DigitChar(n % 10)]
  }

  /** Four digits, zero-padded. */
  function Pad4(n: int): (s: string)
    requires 0 <= n <= 9999
    ensures |s| == 4 && forall i :: 0 <= i < 4 ==> IsDigit(s[i])
  {
    Pad2(n / 100) + Pad2(n % 100)
  }

  function Value2(s: string): (n: int)
    requires |s| == 2 && IsDigit(s[0]) && IsDigit(s[1])
    ensures 0 <= n <= 99
  {
    10 * DigitValue(s[0]) + DigitValue(s[1])
  }

  function Value4(s: string): (n: int)
    requires |s| == 4 && forall i :: 0 <= i < 4 ==> IsDigit(s[i])
    ensures 0 <= n <= 9999
  {
    100 * Value2(s[..2]) + Value2(s[2..])
  }

  lemma Pad2Value(n: int)
    requires 0 <= n <= 99
    ensures Value2(Pad2(n)) == n
  {
  }

  lemma Value2Pad(s: string)
    requires |s| == 2 && IsDigit(s[0]) && IsDigit(s[1])
    ensures Pad2(Value2(s)) == s
  {
    var a, b := DigitValue(s[0]), DigitValue(s[1]);
    assert (10 * a + b) / 10 == a && (10 * a + b) % 10 == b;
  }

  lemma Pad4Value(n: int)
    requires 0 <= n <= 9999
    ensures Value4(Pad4(n)) == n
  {
    var s := Pad4(n);
    assert s[..2] == Pad2(n / 100) && s[2..] == Pad2(n % 100);
    Pad2Value(n / 100);
    Pad2Value(n % 100);
  }

  lemma Value4Pad(s: string)
    requires |s| == 4 && forall i :: 0 <= i < 4 ==> IsDigit(s[i])
    ensures Pad4(Value4(s)) == s
  {
    var hi, lo := Value2(s[..2]), Value2(s[2..]);
    assert (100 * hi + lo) / 100 == hi && (100 * hi + lo) % 100 == lo;
    Value2Pad(s[..2]);
    Value2Pad(s[2..]);
    assert s == s[..2] + s[2..];
  }

  // ----- strftime and strptime -----------------------------------------------

  /** `d.strftime('%Y-%m-%d')`: every field zero-padded. */
  function FormatDate(d: Date): (s: string)
    requires ValidDate(d)
    ensures Canonical(s)
  {
    Pad4(d.year) + "-" + Pad2(d.month) + "-" + Pad2(d.day)
  }

  /** The shape `strftime` writes: `YYYY-MM-DD` in ASCII digits. */
  predicate Canonical(s: string) {
    |s| == 10 && s[4] == '-' && s[7] == '-' &&
    forall i :: 0 <= i < 10 && i != 4 && i != 7 ==> IsDigit(s[i])
  }

  /**
   * The month text `strptime`'s pattern `1[0-2]|0[1-9]|[1-9]` matches
   * before the following '-'.
   */
  predicate MonthText(m: string) {
    (|m| == 2 && ((m[0] == '1' && '0' <= m[1] <= '2') || (m[0] == '0' && '1' <= m[1] <= '9')))
    || (|m| == 1 && '1' <= m[0] <= '9')
  }

  /**
   * A rest of the string that `strptime`'s day pattern
   * `3[01]|[12]\d|0[1-9]|[1-9]| [1-9]` matches completely. The first
   * alternative that matches is kept, so "32" leaves "2" unconverted and fails.
   */
  predicate DayText(d: string) {
    (|d| == 2 && ((d[0] == '3' && (d[1] == '0' || d[1] == '1'))
                  || ((d[0] == '1' || d[0] == '2') && IsDigit(d[1]))
                  || ((d[0] == '0' || d[0] == ' ') && '1' <= d[1] <= '9')))
    || (|d| == 1 && '1' <= d[0] <= '9')
  }

  /** `int()` of a matched month or day; it ignores a leading space. A month text is 1 to 12, a day text 1 to 31. */
  function FieldValue(f: string): (n: int)
    requires MonthText(f) || DayText(f)
    ensures MonthText(f) ==> 1 <= n <= 12
    ensures DayText(f) ==> 1 <= n <= 31
  {
    if |f| == 1 then DigitValue(f[0])
    else if f[0] == ' ' then DigitValue(f[1])
    else Value2(f)
  }

  /**
   * `datetime.strptime(s, '%Y-%m-%d').date()`, or `None` where it raises
   * ValueError: the text does not match the pattern completely, or the
   * fields name no date (year 0, or a day past the month's end).
   */
  function ParseDate(s: string): (r: Option<Date>)
    ensures r.Some? ==> ValidDate(r.value)
  {
    if |s| < 5 || s[4] != '-' || !(forall i :: 0 <= i < 4 ==> IsDigit(s[i])) then None
    else
      var fields := SplitOn('-', s[5..]);
      if |fields| != 2 || !MonthText(fields[0]) || !DayText(fields[1]) then None
      else
        var d := Date(Value4(s[..4]), FieldValue(fields[0]), FieldValue(fields[1]));
        if ValidDate(d) then Some(d) else None
  }

  /** The fields of a canonical date text. */
  lemma CanonicalFields(s: string)
    requires Canonical(s)
    ensures SplitOn('-', s[5..]) == [s[5..7], s[8..10]]
  {
    var m, d := s[5..7], s[8..10];
    assert Excludes('-', m) && Excludes('-', d);
    assert s[5..] == m + ['-'] + d;
    SplitNoSep('-', m, d);
    SplitNoSep('-', d, "");
  }

  /** Loading what was saved gives the same date. */
  lemma ParseFormat(d: Date)
    requires ValidDate(d)
    ensures ParseDate(FormatDate(d)) == Some(d)
  {
    var s := FormatDate(d);
    assert s[..4] == Pad4(d.year) && s[5..7] == Pad2(d.month) && s[8..10] == Pad2(d.day);
    CanonicalFields(s);
    Pad4Value(d.year);
    Pad2Value(d.month);
    Pad2Value(d.day);
  }

  /** Saving a loaded date reproduces its text exactly when the text was in the zero-padded form. */
  lemma FormatParse(s: string)
    requires ParseDate(s).Some?
    ensures FormatDate(ParseDate(s).value) == s <==> Canonical(s)
  {
    if Canonical(s) {
      var d := ParseDate(s).value;
      CanonicalFields(s);
      Value4Pad(s[..4]);
      Value2Pad(s[5..7]);
      Value2Pad(s[8..10]);
      assert s == s[..4] + "-" + s[5..7] + "-" + s[8..10];
    }
  }
}
