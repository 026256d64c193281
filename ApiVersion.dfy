/**
 * The API version: a calendar date (day precision, UTC) written strictly as
 * dd-mm-yyyy. A version exists only for a string that reads as a real
 * Gregorian date and writes back to exactly the same string; versions are
 * compared as instants, which for dates at midnight is comparing day numbers.
 */
module ApiVersion {
  import opened Wrappers

  datatype Date = Date(day: int, month: int, year: int)

  predicate IsLeapYear(year: int) {
    year % 4 == 0 && (year % 100 != 0 || year % 400 == 0)
  }

  function DaysInMonth(month: int, year: int): (n: int)
    requires 1 <= month <= 12
    ensures 28 <= n <= 31
    ensures n == 29 <==> month == 2 && IsLeapYear(year)
  {
    if month == 2 then (if IsLeapYear(year) then 29 else 28)
    else if month == 4 || month == 6 || month == 9 || month == 11 then 30
    else 31
  }

  /** A date that the four-digit format can write and that exists in the calendar. */
  predicate IsValid(d: Date) {
    && 0 <= d.year <= 9999
    && 1 <= d.month <= 12
    && 1 <= d.day <= DaysInMonth(d.month, d.year)
  }

  type Version = d: Date | IsValid(d) witness Date(1, 1, 2020)

  // ---------------------------------------------------------------------
  // Decimal digits

  predicate IsDigit(c: char) { '0' <= c <= '9' }

  predicate AllDigits(s: string) {
    forall i :: 0 <= i < |s| ==> IsDigit(s[i])
  }

  function DigitChar(n: int): (c: char)
    requires 0 <= n <= 9
    ensures IsDigit(c)
  {
    ('0' as int + n) as char
  }

  function DigitValue(c: char): (n: int)
    requires IsDigit(c)
    ensures 0 <= n <= 9
    ensures DigitChar(n) == c
  {
    c as int - '0' as int
  }

  function Pow10(n: nat): (p: nat)
    ensures p >= 1
  {
    if n == 0 then 1 else 10 * Pow10(n - 1)
  }

  /** n written with exactly `width` digits, zero-padded on the left. */
  function Padded(n: nat, width: nat): (s: string)
    ensures |s| == width
    ensures AllDigits(s)
  {
    if width == 0 then "" else Padded(n / 10, width - 1) + [DigitChar(n % 10)]
  }

  /** The number a string of decimal digits denotes. */
  function DigitsValue(s: string): (n: nat)
    requires AllDigits(s)
    ensures n < Pow10(|s|)
  {
    if s == [] then 0 else 10 * DigitsValue(s[..|s| - 1]) + DigitValue(s[|s| - 1])
  }

  lemma {:induction false} ValueOfPadded(n: nat, width: nat)
    requires n < Pow10(width)
    ensures DigitsValue(Padded(n, width)) == n
  {
    if width > 0 {
      var s := Padded(n, width);
      assert s[..|s| - 1] == Padded(n / 10, width - 1);
      ValueOfPadded(n / 10, width - 1);
    }
  }

  lemma {:induction false} PaddedOfValue(s: string)
    requires AllDigits(s)
    ensures Padded(DigitsValue(s), |s|) == s
  {
    if s != [] {
      var init := s[..|s| - 1];
      var n := DigitsValue(s);
      assert n / 10 == DigitsValue(init) && n % 10 == DigitValue(s[|s| - 1]);
      PaddedOfValue(init);
      assert s == init + [s[|s| - 1]];
    }
  }

  // ---------------------------------------------------------------------
  // Format and strict parse (src/Versioning/ApiVersion.php)

  /** toString(): the date in d-m-Y form, two-digit day and month, four-digit year. */
  function Format(v: Version): (s: string)
    ensures |s| == 10 && s[2] == '-' && s[5] == '-'
  {
    Padded(v.day, 2) + "-" + Padded(v.month, 2) + "-" + Padded(v.year, 4)
  }

  /** The only strings the d-m-Y pattern can write back to themselves. */
  predicate HasShape(s: string) {
    && |s| == 10 && s[2] == '-' && s[5] == '-'
    && AllDigits(s[0..2]) && AllDigits(s[3..5]) && AllDigits(s[6..10])
  }

  /**
   * The constructor: read the string as d-m-Y, and accept it only when the
   * date read writes back to exactly the same string (no overflowed day or
   * month, no missing leading zero); otherwise the constructor throws.
   */
  function Parse(s: string): (r: Option<Version>)
    ensures r.Some? ==> Format(r.value) == s
  {
    if HasShape(s) then
      var d := Date(DigitsValue(s[0..2]), DigitsValue(s[3..5]), DigitsValue(s[6..10]));
      if IsValid(d) then
        PaddedOfValue(s[0..2]);
        PaddedOfValue(s[3..5]);
        PaddedOfValue(s[6..10]);
        assert s == s[0..2] + "-" + s[3..5] + "-" + s[6..10];
        Some(d)
      else
        None
    else
      None
  }

  lemma ParseOfFormat(v: Version)
    ensures Parse(Format(v)) == Some(v)
  {
    var s := Format(v);
    assert s[0..2] == Padded(v.day, 2);
    assert s[3..5] == Padded(v.month, 2);
    assert s[6..10] == Padded(v.year, 4);
    ValueOfPadded(v.day, 2);
    ValueOfPadded(v.month, 2);
    ValueOfPadded(v.year, 4);
  }

  /** A string is accepted as v exactly when v writes as that string: the round trip. */
  lemma ParseIsStrict(s: string, v: Version)
    ensures Parse(s) == Some(v) <==> Format(v) == s
  {
    if Format(v) == s {
      ParseOfFormat(v);
    }
  }

  /** The rejected samples of the test suite: day 40, month 13, day 0. */
  lemma RejectedSamples()
    ensures Parse("40-10-2019") == None
    ensures Parse("10-13-2019") == None
    ensures Parse("00-10-0000") == None
  {
    assert "40-10-2019"[0..2] == "40" && DigitsValue("40") == 40 by { assert "40"[..1] == "4"; }
    assert "10-13-2019"[3..5] == "13" && DigitsValue("13") == 13 by { assert "13"[..1] == "1"; }
    assert "00-10-0000"[0..2] == "00" && DigitsValue("00") == 0 by { assert "00"[..1] == "0"; }
  }

  /** A rejected sample of the test suite: 29 February of the common year 2019. */
  lemma RejectedLeapDayOfCommonYear()
    ensures Parse("29-02-2019") == None
  {
    assert "29-02-2019"[0..2] == "29" && DigitsValue("29") == 29 by { assert "29"[..1] == "2"; }
    assert "29-02-2019"[3..5] == "02" && DigitsValue("02") == 2 by { assert "02"[..1] == "0"; }
    assert "29-02-2019"[6..10] == "2019" && DigitsValue("2019") == 2019 by {
      assert "2019"[..3] == "201" && "201"[..2] == "20" && "20"[..1] == "2";
    }
  }

  /** The rejected samples of the test suite that are not dates at all. */
  lemma RejectedNonDates()
    ensures Parse("foo") == None
    ensures Parse("aa-bb-cccc") == None
  {
    assert !IsDigit('a');
  }

  /** An accepted sample of the test suite: 01-01-2019 reads as that date and writes back. */
  lemma AcceptedSample()
    ensures Parse("01-01-2019") == Some(Date(1, 1, 2019))
    ensures Format(Date(1, 1, 2019)) == "01-01-2019"
  {
    var s := "01-01-2019";
    assert s[0..2] == "01" && s[3..5] == "01" && DigitsValue("01") == 1 by { assert "01"[..1] == "0"; }
    assert s[6..10] == "2019" && DigitsValue("2019") == 2019 by {
      assert "2019"[..3] == "201" && "201"[..2] == "20" && "20"[..1] == "2";
    }
  }

  /** The leap-day sample of the test suite: 29-02-2020 is accepted (2020 is a leap year). */
  lemma AcceptedLeapDay()
    ensures Parse("29-02-2020") == Some(Date(29, 2, 2020))
    ensures Format(Date(29, 2, 2020)) == "29-02-2020"
  {
    var s := "29-02-2020";
    assert s[0..2] == "29" && DigitsValue("29") == 29 by { assert "29"[..1] == "2"; }
    assert s[3..5] == "02" && DigitsValue("02") == 2 by { assert "02"[..1] == "0"; }
    assert s[6..10] == "2020" && DigitsValue("2020") == 2020 by {
      assert "2020"[..3] == "202" && "202"[..2] == "20" && "20"[..1] == "2";
    }
  }

  // ---------------------------------------------------------------------
  // Comparison (Carbon compares the instants; a version is midnight UTC of
  // its date, so comparing instants is comparing day numbers)

  function YearLength(year: int): int {
    if IsLeapYear(year) then 366 else 365
  }

  /** Days from 1 January of year 0 to 1 January of `year`. */
  function DaysBeforeYear(year: nat): nat {
    if year == 0 then 0 else DaysBeforeYear(year - 1) + YearLength(year - 1)
  }

  /** Days from 1 January to the first of `month` in `year`. */
  function DaysBeforeMonth(month: int, year: int): (n: nat)
    requires 1 <= month <= 12
    ensures n + DaysInMonth(month, year) <= YearLength(year)
  {
    var leap := if IsLeapYear(year) then 1 else 0;
    if month == 1 then 0
    else if month == 2 then 31
    else if month == 3 then 59 + leap
    else if month == 4 then 90 + leap
    else if month == 5 then 120 + leap
    else if month == 6 then 151 + leap
    else if month == 7 then 181 + leap
    else if month == 8 then 212 + leap
    else if month == 9 then 243 + leap
    else if month == 10 then 273 + leap
    else if month == 11 then 304 + leap
    else 334 + leap
  }

  /** The cumulative table agrees with the month lengths it is built from. */
  lemma MonthTableMatchesMonthLengths(month: int, year: int)
    requires 1 <= month <= 12
    ensures month < 12 ==> DaysBeforeMonth(month + 1, year) == DaysBeforeMonth(month, year) + DaysInMonth(month, year)
    ensures month == 12 ==> DaysBeforeMonth(month, year) + DaysInMonth(month, year) == YearLength(year)
  {
  }

  /** The number of the day a version denotes, counted from 1 January of year 0. */
  function DayNumber(v: Version): nat {
    DaysBeforeYear(v.year) + DaysBeforeMonth(v.month, v.year) + v.day - 1
  }

  /** earlierThan: the version's instant lies strictly before the other's. */
  predicate EarlierThan(a: Version, b: Version) { DayNumber(a) < DayNumber(b) }

  /** earlierThanOrEqualTo */
  predicate EarlierThanOrEqualTo(a: Version, b: Version) { DayNumber(a) <= DayNumber(b) }

  /** newerThan */
  predicate NewerThan(a: Version, b: Version) { DayNumber(a) > DayNumber(b) }

  /** newerThanOrEqualTo */
  predicate NewerThanOrEqualTo(a: Version, b: Version) { DayNumber(a) >= DayNumber(b) }

  /** The reference order: lexicographic on (year, month, day). */
  predicate LexicographicallyBefore(a: Date, b: Date) {
    || a.year < b.year
    || (a.year == b.year && a.month < b.month)
    || (a.year == b.year && a.month == b.month && a.day < b.day)
  }

  lemma {:induction false} YearsAreOrdered(y1: nat, y2: nat)
    requires y1 < y2
    ensures DaysBeforeYear(y1) + YearLength(y1) <= DaysBeforeYear(y2)
  {
    if y1 + 1 < y2 {
      YearsAreOrdered(y1, y2 - 1);
    }
  }

  lemma {:induction false} MonthsAreOrdered(m1: int, m2: int, year: int)
    requires 1 <= m1 < m2 <= 12
    ensures DaysBeforeMonth(m1, year) + DaysInMonth(m1, year) <= DaysBeforeMonth(m2, year)
  {
    MonthTableMatchesMonthLengths(m2 - 1, year);
    if m1 + 1 < m2 {
      MonthsAreOrdered(m1, m2 - 1, year);
    }
  }

  lemma EarlierWhenLexicographicallyBefore(a: Version, b: Version)
    requires LexicographicallyBefore(a, b)
    ensures DayNumber(a) < DayNumber(b)
  {
    if a.year < b.year {
      YearsAreOrdered(a.year, b.year);
    } else if a.month < b.month {
      MonthsAreOrdered(a.month, b.month, a.year);
    }
  }

  /** Comparing instants orders versions exactly as (year, month, day) does. */
  lemma EarlierThanIsLexicographic(a: Version, b: Version)
    ensures EarlierThan(a, b) <==> LexicographicallyBefore(a, b)
  {
    if LexicographicallyBefore(a, b) {
      EarlierWhenLexicographicallyBefore(a, b);
    } else if LexicographicallyBefore(b, a) {
      EarlierWhenLexicographicallyBefore(b, a);
    }
  }

  /** Two versions on the same day are the same version. */
  lemma SameDayIsSameVersion(a: Version, b: Version)
    ensures DayNumber(a) == DayNumber(b) <==> a == b
  {
    EarlierThanIsLexicographic(a, b);
    EarlierThanIsLexicographic(b, a);
  }

  lemma EarlierThanOrEqualToIsReflexive(a: Version)
    ensures EarlierThanOrEqualTo(a, a) && NewerThanOrEqualTo(a, a)
    ensures !EarlierThan(a, a) && !NewerThan(a, a)
  {
  }

  /** newerThan and newerThanOrEqualTo are the converses of the earlier-than relations. */
  lemma NewerIsConverseOfEarlier(a: Version, b: Version)
    ensures NewerThan(a, b) <==> EarlierThan(b, a)
    ensures NewerThanOrEqualTo(a, b) <==> EarlierThanOrEqualTo(b, a)
  {
  }

  /** earlierThanOrEqualTo is earlierThan or the same version. */
  lemma EarlierThanOrEqualToMeansEarlierOrSame(a: Version, b: Version)
    ensures EarlierThanOrEqualTo(a, b) <==> EarlierThan(a, b) || a == b
  {
    SameDayIsSameVersion(a, b);
  }

  /** The order is total: exactly one of earlier, same, newer holds. */
  lemma Trichotomy(a: Version, b: Version)
    ensures EarlierThan(a, b) || a == b || NewerThan(a, b)
    ensures !(EarlierThan(a, b) && a == b) && !(a == b && NewerThan(a, b))
    ensures !(EarlierThan(a, b) && NewerThan(a, b))
  {
    SameDayIsSameVersion(a, b);
  }

  lemma EarlierThanOrEqualToIsTransitive(a: Version, b: Version, c: Version)
    requires EarlierThanOrEqualTo(a, b) && EarlierThanOrEqualTo(b, c)
    ensures EarlierThanOrEqualTo(a, c)
  {
  }

  /** The comparison samples of the test suite, around 02-01-2020. */
  lemma ComparisonSamples()
    ensures EarlierThan(Date(2, 1, 2020), Date(3, 1, 2020))
    ensures !EarlierThan(Date(2, 1, 2020), Date(1, 1, 2020))
    ensures EarlierThanOrEqualTo(Date(2, 1, 2020), Date(3, 1, 2020))
    ensures EarlierThanOrEqualTo(Date(2, 1, 2020), Date(2, 1, 2020))
    ensures !EarlierThanOrEqualTo(Date(2, 1, 2020), Date(1, 1, 2020))
    ensures NewerThan(Date(2, 1, 2020), Date(1, 1, 2020))
    ensures !NewerThan(Date(2, 1, 2020), Date(3, 1, 2020))
    ensures NewerThanOrEqualTo(Date(2, 1, 2020), Date(1, 1, 2020))
    ensures !NewerThanOrEqualTo(Date(2, 1, 2020), Date(3, 1, 2020))
  {
    EarlierWhenLexicographicallyBefore(Date(2, 1, 2020), Date(3, 1, 2020));
    EarlierWhenLexicographicallyBefore(Date(1, 1, 2020), Date(2, 1, 2020));
  }
}
