/**
  The helpers of app/utils.py: password verification over an abstract
  digest function, and the strict `YYYY-MM-DD` calendar-date check.
  The calendar date type and its ISO 8601 text form live here too, since
  both the validator and the movie serializer use them.
 */
module Utils {
  import opened Wrappers

  // ---------------------------------------------------------------------
  // Passwords
  // ---------------------------------------------------------------------

  /**
    `check_password_hash`: recompute the digest of the entered password and
    compare it with the stored one.  `hash` stands for `hash_password`
    (unsalted SHA-256 as hex text), whose internals are not modelled.
   */
  function CheckPasswordHash(hash: string -> string, stored: string, entered: string): (ok: bool)
    ensures ok <==> hash(entered) == stored
  {
    hash(entered) == stored
  }

  /** Every password is accepted against its own stored digest. */
  lemma CheckAcceptsOwnDigest(hash: string -> string, password: string)
    ensures CheckPasswordHash(hash, hash(password), password)
  {
  }

  /** Any stored value other than the entered password's digest is rejected. */
  lemma CheckRejectsOtherDigest(hash: string -> string, stored: string, entered: string)
    requires stored != hash(entered)
    ensures !CheckPasswordHash(hash, stored, entered)
  {
  }

  /**
    No salt: two users with equal passwords have equal stored digests, so
    the digest stored for one password also admits every equal password.
   */
  lemma DigestIsUnsalted(hash: string -> string, p: string, q: string)
    requires p == q
    ensures hash(p) == hash(q) && CheckPasswordHash(hash, hash(p), q)
  {
  }

  // ---------------------------------------------------------------------
  // Calendar dates
  // ---------------------------------------------------------------------

  datatype Date = Date(year: int, month: int, day: int)

  /** Gregorian leap years. */
  predicate IsLeapYear(y: int) {
    y % 4 == 0 && (y % 100 != 0 || y % 400 == 0)
  }

  function DaysInMonth(y: int, m: int): (n: int)
    requires 1 <= m <= 12
    ensures 28 <= n <= 31
    ensures m == 2 ==> (n == 29 <==> IsLeapYear(y))
  {
    if m == 2 then (if IsLeapYear(y) then 29 else 28)
    else if m == 4 || m == 6 || m == 9 || m == 11 then 30
    else 31
  }

  /** The dates Python's `datetime.date` can hold: years 1 to 9999. */
  predicate IsCalendarDate(d: Date) {
    1 <= d.year <= 9999 && 1 <= d.month <= 12 && 1 <= d.day <= DaysInMonth(d.year, d.month)
  }

  type CalendarDate = d: Date | IsCalendarDate(d) witness Date(1, 1, 1)

  /** Chronological order, strict. */
  predicate DateBefore(a: Date, b: Date) {
    a.year < b.year
    || (a.year == b.year && (a.month < b.month || (a.month == b.month && a.day < b.day)))
  }

  // ---------------------------------------------------------------------
  // Digits and the ISO 8601 text form
  // ---------------------------------------------------------------------

  predicate IsDigit(c: char) {
    '0' <= c <= '9'
  }

  function DigitValue(c: char): (n: int)
    requires IsDigit(c)
    ensures 0 <= n <= 9
  {
    c as int - '0' as int
  }

  function DigitChar(n: int): (c: char)
    requires 0 <= n <= 9
    ensures IsDigit(c) && DigitValue(c) == n
  {
    (n + '0' as int) as char
  }

  /** Two decimal digits, zero-padded. */
  function Pad2(n: int): (s: string)
    requires 0 <= n < 100
    ensures |s| == 2 && IsDigit(s[0]) && IsDigit(s[1])
    ensures 10 * DigitValue(s[0]) + DigitValue(s[1]) == n
  {
    [DigitChar(n / 10), DigitChar(n % 10)]
  }

  /** Four decimal digits, zero-padded. */
  function Pad4(n: int): (s: string)
    requires 0 <= n < 10000
    ensures |s| == 4
  {
    Pad2(n / 100) + Pad2(n % 100)
  }

  /** `date.isoformat()`: the text YYYY-MM-DD. */
  function Format(d: CalendarDate): (s: string)
    ensures IsDateShape(s)
  {
    Pad4(d.year) + "-" + Pad2(d.month) + "-" + Pad2(d.day)
  }

  /** Ten characters laid out as four digits, '-', two digits, '-', two digits. */
  predicate IsDateShape(s: string) {
    && |s| == 10 && s[4] == '-' && s[7] == '-'
    && IsDigit(s[0]) && IsDigit(s[1]) && IsDigit(s[2]) && IsDigit(s[3])
    && IsDigit(s[5]) && IsDigit(s[6]) && IsDigit(s[8]) && IsDigit(s[9])
  }

  /** The number written by the two digits at `s[i]`, `s[i + 1]`. */
  function TwoDigits(s: string, i: nat): int
    requires i + 1 < |s| && IsDigit(s[i]) && IsDigit(s[i + 1])
  {
    10 * DigitValue(s[i]) + DigitValue(s[i + 1])
  }

  /**
    `strptime(s, "%Y-%m-%d")`, restricted to the strict layout: the date
    written by `s`, or None when the text has another shape or names no
    calendar date (month 13, February 29 in a common year, year 0, ...).
   */
  function ParseDate(s: string): (r: Option<CalendarDate>)
    ensures r.Some? ==> IsDateShape(s)
  {
    if IsDateShape(s) then
      var d := Date(100 * TwoDigits(s, 0) + TwoDigits(s, 2), TwoDigits(s, 5), TwoDigits(s, 8));
      if IsCalendarDate(d) then Some(d) else None
    else None
  }

  lemma Pad2Digits(n: int)
    requires 0 <= n < 100
    ensures DigitValue(Pad2(n)[0]) == n / 10 && DigitValue(Pad2(n)[1]) == n % 10
  {
  }

  /** Formatting and then parsing gives the date back. */
  lemma {:induction false} ParseFormat(d: CalendarDate)
    ensures ParseDate(Format(d)) == Some(d)
  {
    var s := Format(d);
    var y2 := Pad2(d.year / 100);
    var y1 := Pad2(d.year % 100);
    assert s[0] == y2[0] && s[1] == y2[1] && s[2] == y1[0] && s[3] == y1[1];
    assert s[5..7] == Pad2(d.month) && s[8..10] == Pad2(d.day);
    assert TwoDigits(s, 0) == d.year / 100;
    assert TwoDigits(s, 2) == d.year % 100;
    assert TwoDigits(s, 5) == d.month;
    assert TwoDigits(s, 8) == d.day;
  }

  lemma DigitRoundTrip(c: char)
    requires IsDigit(c)
    ensures DigitChar(DigitValue(c)) == c
  {
  }

  lemma Pad2OfTwoDigits(s: string, i: nat)
    requires i + 1 < |s| && IsDigit(s[i]) && IsDigit(s[i + 1])
    ensures Pad2(TwoDigits(s, i)) == s[i..i + 2]
  {
    var a, b := DigitValue(s[i]), DigitValue(s[i + 1]);
    var n := 10 * a + b;
    assert n / 10 == a && n % 10 == b;
    DigitRoundTrip(s[i]);
    DigitRoundTrip(s[i + 1]);
  }

  /** A text the parser accepts is exactly the ISO form of the date it names. */
  lemma {:induction false} FormatParse(s: string)
    requires ParseDate(s).Some?
    ensures Format(ParseDate(s).value) == s
  {
    var d := ParseDate(s).value;
    var hi, lo := TwoDigits(s, 0), TwoDigits(s, 2);
    assert d.year == 100 * hi + lo;
    assert d.year / 100 == hi && d.year % 100 == lo;
    Pad2OfTwoDigits(s, 0);
    Pad2OfTwoDigits(s, 2);
    Pad2OfTwoDigits(s, 5);
    Pad2OfTwoDigits(s, 8);
    assert Pad4(d.year) == s[0..4];
    assert s == s[0..4] + "-" + s[5..7] + "-" + s[8..10];
  }

  /**
    `is_valid_date`: true exactly when the text is the YYYY-MM-DD form of a
    real calendar date.  It never fails: every other text yields false.
   */
  function IsValidDate(s: string): (ok: bool)
    ensures ok <==> exists d: CalendarDate :: Format(d) == s
  {
    var r := ParseDate(s);
    if r.Some? then
      FormatParse(s);
      true
    else
      assert forall d: CalendarDate :: Format(d) != s by {
        forall d: CalendarDate ensures Format(d) != s {
          ParseFormat(d);
        }
      }
      false
  }

  // ---------------------------------------------------------------------
  // Python's string comparison
  // ---------------------------------------------------------------------

  /** `a < b` on Python strings: lexicographic by code point. */
  predicate StrLess(a: string, b: string) {
    if a == [] then b != []
    else b != [] && (a[0] < b[0] || (a[0] == b[0] && StrLess(a[1..], b[1..])))
  }

  /** With prefixes of equal length, the prefixes decide unless they are equal. */
  lemma {:induction false} StrLessConcat(p: string, q: string, s: string, t: string)
    requires |p| == |q|
    ensures StrLess(p + s, q + t) == if p == q then StrLess(s, t) else StrLess(p, q)
  {
    if p == [] {
      assert p + s == s && q + t == t;
    } else {
      assert (p + s)[0] == p[0] && (q + t)[0] == q[0];
      assert (p + s)[1..] == p[1..] + s;
      assert (q + t)[1..] == q[1..] + t;
      StrLessConcat(p[1..], q[1..], s, t);
      if p[0] == q[0] && p[1..] == q[1..] {
        assert p == q;
      }
    }
  }

  lemma Pad2Less(a: int, b: int)
    requires 0 <= a < 100 && 0 <= b < 100
    ensures StrLess(Pad2(a), Pad2(b)) <==> a < b
    ensures Pad2(a) == Pad2(b) <==> a == b
  {
    Pad2Digits(a);
    Pad2Digits(b);
    var x, y := Pad2(a), Pad2(b);
    assert StrLess(x[1..], y[1..]) == (x[1] < y[1]) by {
      assert x[1..][1..] == [] && y[1..][1..] == [];
    }
    assert StrLess(x, y) == (x[0] < y[0] || (x[0] == y[0] && x[1] < y[1]));
  }

  lemma Pad4Less(a: int, b: int)
    requires 0 <= a < 10000 && 0 <= b < 10000
    ensures StrLess(Pad4(a), Pad4(b)) <==> a < b
    ensures Pad4(a) == Pad4(b) <==> a == b
  {
    StrLessConcat(Pad2(a / 100), Pad2(b / 100), Pad2(a % 100), Pad2(b % 100));
    Pad2Less(a / 100, b / 100);
    Pad2Less(a % 100, b % 100);
    if Pad4(a) == Pad4(b) {
      assert Pad4(a)[..2] == Pad2(a / 100) && Pad4(b)[..2] == Pad2(b / 100);
      assert Pad4(a)[2..] == Pad2(a % 100) && Pad4(b)[2..] == Pad2(b % 100);
    }
  }

  /**
    On ISO texts, Python's string order is chronological order: comparing
    two formatted dates as strings compares the dates.
   */
  lemma {:induction false} FormatOrder(a: CalendarDate, b: CalendarDate)
    ensures StrLess(Format(a), Format(b)) <==> DateBefore(a, b)
  {
    var ma, mb := "-" + Pad2(a.month), "-" + Pad2(b.month);
    var da, db := "-" + Pad2(a.day), "-" + Pad2(b.day);
    assert Format(a) == Pad4(a.year) + (ma + da);
    assert Format(b) == Pad4(b.year) + (mb + db);
    StrLessConcat(Pad4(a.year), Pad4(b.year), ma + da, mb + db);
    Pad4Less(a.year, b.year);
    StrLessConcat(ma, mb, da, db);
    StrLessConcat("-", "-", Pad2(a.month), Pad2(b.month));
    StrLessConcat("-", "-", Pad2(a.day), Pad2(b.day));
    StrLessConcat(Pad2(a.day), Pad2(b.day), [], []);
    StrLessConcat(Pad2(a.month), Pad2(b.month), [], []);
    assert ma == "-" + Pad2(a.month) + [];
    Pad2Less(a.month, b.month);
    Pad2Less(a.day, b.day);
    assert ma == mb <==> a.month == b.month;
    assert StrLess(da, db) <==> a.day < b.day;
    assert StrLess(ma, mb) <==> a.month < b.month;
  }

  // ---------------------------------------------------------------------
  // Examples: a leap day is accepted, malformed texts are rejected
  // ---------------------------------------------------------------------

  lemma AcceptsLeapDay()
    ensures IsValidDate("2024-02-29")
  {
    assert ParseDate("2024-02-29").Some?;
  }

  lemma RejectsBadDates()
    ensures !IsValidDate("2024-13-01")
    ensures !IsValidDate("2023-02-29")
    ensures !IsValidDate("01-01-2024")
    ensures !IsValidDate("not-a-date")
    ensures !IsValidDate("2024-01-01x")
    ensures !IsValidDate("0000-01-01")
  {
    assert ParseDate("2024-13-01").None?;
    assert ParseDate("2023-02-29").None?;
    assert ParseDate("01-01-2024").None?;
    assert ParseDate("not-a-date").None?;
    assert ParseDate("2024-01-01x").None?;
    assert ParseDate("0000-01-01").None?;
  }
}
