/**
 * A pagination request: how many records to return (limit) and where to
 * start (cursor), read from the incoming HTTP input "cursor_limit" and
 * "cursor". A limit must be an integer between 1 and 20 (10 when none is
 * given); a cursor, when given, must be a UUID.
 */
module PaginatedRequest {
  import opened Wrappers
  import ApiVersion
  import PaginationException

  const DefaultLimit: int := 10
  const MinLimit: int := 1
  const MaxLimit: int := 20

  /** The range of a PHP (64-bit) integer, beyond which FILTER_VALIDATE_INT fails. */
  const PhpIntMin: int := -0x8000_0000_0000_0000
  const PhpIntMax: int := 0x7FFF_FFFF_FFFF_FFFF

  const LimitMessage: string := "Pagination only supports a limit between 1 and 20."
  const CursorMessage: string := "An invalid pagination cursor was provided."

  /** The constructor's arguments; the constructor itself stores them unchanged. */
  datatype PaginatedRequest = PaginatedRequest(limit: int, cursor: Option<string>)

  /** An input value as the request can deliver it: an integer (JSON) or a string (query, form). */
  datatype Input = IntInput(n: int) | StringInput(s: string)

  // ---------------------------------------------------------------------
  // Presence of an input (the request's filled())

  /** The characters PHP's trim() removes by default. */
  predicate IsBlankChar(c: char) {
    c == ' ' || c == '\t' || c == '\n' || c == '\r' || c == '\0' || c as int == 0x0B
  }

  /** A string that trims to the empty string. */
  predicate IsBlank(s: string) {
    forall i :: 0 <= i < |s| ==> IsBlankChar(s[i])
  }

  /** filled(): present and not blank; an integer is never blank. */
  predicate Filled(i: Option<Input>) {
    i.Some? && (i.value.IntInput? || !IsBlank(i.value.s))
  }

  predicate FilledString(s: Option<string>) {
    s.Some? && !IsBlank(s.value)
  }

  // ---------------------------------------------------------------------
  // Integer validation (filter_var with FILTER_VALIDATE_INT)

  /** The whitespace the integer filter strips from both ends (no NUL, unlike trim()). */
  predicate IsFilterSpace(c: char) {
    c == ' ' || c == '\t' || c == '\r' || c == '\n' || c as int == 0x0B
  }

  function TrimLeft(s: string): (t: string)
    ensures |t| <= |s| && t == s[|s| - |t|..]
    ensures forall i :: 0 <= i < |s| - |t| ==> IsFilterSpace(s[i])
    ensures |t| > 0 ==> !IsFilterSpace(t[0])
  {
    if |s| > 0 && IsFilterSpace(s[0]) then TrimLeft(s[1..]) else s
  }

  function TrimRight(s: string): (t: string)
    ensures |t| <= |s| && t == s[..|t|]
    ensures forall i :: |t| <= i < |s| ==> IsFilterSpace(s[i])
    ensures |t| > 0 ==> !IsFilterSpace(t[|t| - 1])
  {
    if |s| > 0 && IsFilterSpace(s[|s| - 1]) then TrimRight(s[..|s| - 1]) else s
  }

  function FilterTrim(s: string): string {
    TrimRight(TrimLeft(s))
  }

  /** Digits without a superfluous leading zero: "0", or a non-zero digit followed by digits. */
  predicate IsCanonicalNatural(d: string) {
    |d| > 0 && ApiVersion.AllDigits(d) && (d[0] == '0' ==> |d| == 1)
  }

  /** The integer filter on an already trimmed string: [+-]?(0|[1-9][0-9]*) within the PHP range. */
  function ReadInt(t: string): (r: Option<int>)
    ensures r.Some? ==> PhpIntMin <= r.value <= PhpIntMax
  {
    if |t| == 0 then None
    else
      var body := if t[0] == '-' || t[0] == '+' then t[1..] else t;
      if !IsCanonicalNatural(body) then None
      else
        var n: int := ApiVersion.DigitsValue(body);
        var v := if t[0] == '-' then -n else n;
        if PhpIntMin <= v <= PhpIntMax then Some(v) else None
  }

  /** FILTER_VALIDATE_INT on a string: strip filter whitespace, then read the integer. */
  function FilterInt(s: string): Option<int> {
    ReadInt(FilterTrim(s))
  }

  /** The integer an input denotes, if it passes the filter; an integer input passes as itself. */
  function IntValue(i: Input): Option<int> {
    match i
    case IntInput(n) => Some(n)
    case StringInput(s) => FilterInt(s)
  }

  // ---------------------------------------------------------------------
  // UUIDs

  predicate IsHexDigit(c: char) {
    '0' <= c <= '9' || 'a' <= c <= 'f' || 'A' <= c <= 'F'
  }

  /** Positions of the dashes in the 8-4-4-4-12 form. */
  predicate IsDashPosition(i: int) {
    i == 8 || i == 13 || i == 18 || i == 23
  }

  /** A UUID in its canonical textual form: 36 characters, hexadecimal groups 8-4-4-4-12. */
  predicate IsUuid(s: string) {
    |s| == 36 && forall i :: 0 <= i < 36 ==> if IsDashPosition(i) then s[i] == '-' else IsHexDigit(s[i])
  }

  // ---------------------------------------------------------------------
  // fromIlluminate()

  /** Whether a filled limit input is acceptable: an integer between MinLimit and MaxLimit. */
  predicate LimitAccepted(i: Input) {
    IntValue(i).Some? && MinLimit <= IntValue(i).value <= MaxLimit
  }

  /**
   * fromIlluminate(): validate the limit first (both of its failures carry the
   * same message), then the cursor; the cursor is stored as given, even when
   * it is blank.
   */
  function FromIlluminate(limitInput: Option<Input>, cursor: Option<string>): (r: Result<PaginatedRequest, PaginationException.PaginationException>)
    ensures r.Success? ==> MinLimit <= r.value.limit <= MaxLimit && r.value.cursor == cursor
    ensures r.Success? && !Filled(limitInput) ==> r.value.limit == DefaultLimit
    ensures r.Success? && Filled(limitInput) ==> IntValue(limitInput.value) == Some(r.value.limit)
    ensures r.Success? <==>
              (Filled(limitInput) ==> LimitAccepted(limitInput.value)) &&
              (FilledString(cursor) ==> IsUuid(cursor.value))
    ensures Filled(limitInput) && !LimitAccepted(limitInput.value) ==>
              r == Failure(PaginationException.PaginationException(LimitMessage))
    ensures (Filled(limitInput) ==> LimitAccepted(limitInput.value)) && FilledString(cursor) && !IsUuid(cursor.value) ==>
              r == Failure(PaginationException.PaginationException(CursorMessage))
  {
    if Filled(limitInput) && IntValue(limitInput.value).None? then
      Failure(PaginationException.PaginationException(LimitMessage))
    else if Filled(limitInput) && (IntValue(limitInput.value).value < MinLimit || IntValue(limitInput.value).value > MaxLimit) then
      Failure(PaginationException.PaginationException(LimitMessage))
    else
      var limit := if Filled(limitInput) then IntValue(limitInput.value).value else DefaultLimit;
      if FilledString(cursor) && !IsUuid(cursor.value) then
        Failure(PaginationException.PaginationException(CursorMessage))
      else
        Success(PaginatedRequest(limit, cursor))
  }

  // ---------------------------------------------------------------------
  // The spellings the integer filter accepts

  /** n in decimal, without leading zeros. */
  function Decimal(n: nat): (s: string)
    ensures IsCanonicalNatural(s)
    ensures ApiVersion.DigitsValue(s) == n
  {
    if n < 10 then [ApiVersion.DigitChar(n)]
    else
      var s := Decimal(n / 10) + [ApiVersion.DigitChar(n % 10)];
      assert s[..|s| - 1] == Decimal(n / 10);
      s
  }

  /** A canonical digit string with a leading non-zero digit denotes at least 1. */
  lemma {:induction false} LeadingNonZeroIsPositive(d: string)
    requires IsCanonicalNatural(d) && d[0] != '0'
    ensures ApiVersion.DigitsValue(d) >= 1
  {
    if |d| > 1 {
      LeadingNonZeroIsPositive(d[..|d| - 1]);
    }
  }

  /** Decimal is the only canonical spelling of a number. */
  lemma {:induction false} DecimalOfValue(d: string)
    requires IsCanonicalNatural(d)
    ensures Decimal(ApiVersion.DigitsValue(d)) == d
  {
    var n := ApiVersion.DigitsValue(d);
    var last := d[|d| - 1];
    if |d| == 1 {
      assert n == ApiVersion.DigitValue(last);
      assert d == [last];
    } else {
      var init := d[..|d| - 1];
      assert n == 10 * ApiVersion.DigitsValue(init) + ApiVersion.DigitValue(last);
      LeadingNonZeroIsPositive(init);
      assert n / 10 == ApiVersion.DigitsValue(init) && n % 10 == ApiVersion.DigitValue(last);
      DecimalOfValue(init);
      assert Decimal(n) == init + [ApiVersion.DigitChar(n % 10)];
      assert d == init + [last];
    }
  }

  /** The trimmed strings the integer filter reads as v. */
  predicate IsSpellingOf(t: string, v: int) {
    if v > 0 then t == Decimal(v) || t == "+" + Decimal(v)
    else if v == 0 then t == "0" || t == "+0" || t == "-0"
    else t == "-" + Decimal(-v)
  }

  /** A string that neither starts nor ends with filter whitespace is its own trimmed form. */
  lemma TrimmedAlready(s: string)
    requires |s| > 0 ==> !IsFilterSpace(s[0]) && !IsFilterSpace(s[|s| - 1])
    ensures FilterTrim(s) == s
  {
  }

  lemma {:induction false} ReadIntSound(t: string, v: int)
    requires ReadInt(t) == Some(v)
    ensures IsSpellingOf(t, v)
  {
    var body := if t[0] == '-' || t[0] == '+' then t[1..] else t;
    DecimalOfValue(body);
    if t[0] == '-' || t[0] == '+' {
      assert t == [t[0]] + body;
    }
  }

  lemma {:induction false} ReadIntComplete(t: string, v: int)
    requires PhpIntMin <= v <= PhpIntMax && IsSpellingOf(t, v)
    ensures ReadInt(t) == Some(v)
  {
    var n: nat := if v >= 0 then v else -v;
    var body := Decimal(n);
    assert t == body || t == "+" + body || t == "-" + body;
    if t != body {
      assert t[1..] == body;
    }
  }

  /** The filter accepts exactly the (trimmed) decimal spellings of integers in PHP's range. */
  lemma FilterIntCharacterised(s: string, v: int)
    ensures FilterInt(s) == Some(v) <==> PhpIntMin <= v <= PhpIntMax && IsSpellingOf(FilterTrim(s), v)
  {
    if FilterInt(s) == Some(v) {
      ReadIntSound(FilterTrim(s), v);
    }
    if PhpIntMin <= v <= PhpIntMax && IsSpellingOf(FilterTrim(s), v) {
      ReadIntComplete(FilterTrim(s), v);
    }
  }

  // ---------------------------------------------------------------------
  // Consequences

  /** An integer limit is accepted exactly in 1..20 and becomes the request's limit. */
  lemma IntegerLimit(n: int)
    ensures FromIlluminate(Some(IntInput(n)), None).Success? <==> MinLimit <= n <= MaxLimit
    ensures MinLimit <= n <= MaxLimit ==> FromIlluminate(Some(IntInput(n)), None) == Success(PaginatedRequest(n, None))
  {
  }

  /** A string limit that reads as n in 1..20 gives a request for n records. */
  lemma AcceptedStringLimit(s: string, n: int, cursor: Option<string>)
    requires MinLimit <= n <= MaxLimit && FilterInt(s) == Some(n) && !IsBlank(s)
    requires !FilledString(cursor) || IsUuid(cursor.value)
    ensures FromIlluminate(Some(StringInput(s)), cursor) == Success(PaginatedRequest(n, cursor))
  {
    assert Filled(Some(StringInput(s)));
    assert IntValue(StringInput(s)) == Some(n);
  }

  /** A limit written in decimal, or signed with '+', reads as the number. */
  lemma DecimalLimit(n: int, cursor: Option<string>)
    requires MinLimit <= n <= MaxLimit
    requires !FilledString(cursor) || IsUuid(cursor.value)
    ensures FromIlluminate(Some(StringInput(Decimal(n))), cursor) == Success(PaginatedRequest(n, cursor))
    ensures FromIlluminate(Some(StringInput("+" + Decimal(n))), cursor) == Success(PaginatedRequest(n, cursor))
  {
    var d := Decimal(n);
    var p := "+" + d;
    assert !IsFilterSpace(d[0]) && !IsFilterSpace(d[|d| - 1]) && !IsBlankChar(d[0]);
    assert p[0] == '+' && p[|p| - 1] == d[|d| - 1];
    TrimmedAlready(d);
    TrimmedAlready(p);
    ReadIntComplete(d, n);
    ReadIntComplete(p, n);
    AcceptedStringLimit(d, n, cursor);
    assert !IsBlankChar(p[0]);
    AcceptedStringLimit(p, n, cursor);
  }

  /** A numeral with a superfluous leading zero ("05") is refused with the limit message. */
  lemma LeadingZeroRejected(d: string, cursor: Option<string>)
    requires |d| >= 2 && d[0] == '0' && ApiVersion.AllDigits(d)
    ensures FromIlluminate(Some(StringInput(d)), cursor) == Failure(PaginationException.PaginationException(LimitMessage))
  {
    assert !IsFilterSpace(d[|d| - 1]) && !IsBlankChar(d[0]);
    TrimmedAlready(d);
    assert !IsCanonicalNatural(d);
    assert Filled(Some(StringInput(d)));
  }

  /** A valid limit and a UUID cursor are accepted as they are. */
  lemma AcceptsValidInput(n: int, uuid: string)
    requires MinLimit <= n <= MaxLimit && IsUuid(uuid)
    ensures FromIlluminate(Some(IntInput(n)), Some(uuid)) == Success(PaginatedRequest(n, Some(uuid)))
  {
  }

  /** Without a limit, or with a blank one, the request takes the default limit. */
  lemma DefaultsWhenAbsent(blank: string)
    requires IsBlank(blank)
    ensures FromIlluminate(None, None) == Success(PaginatedRequest(DefaultLimit, None))
    ensures FromIlluminate(Some(StringInput(blank)), None) == Success(PaginatedRequest(DefaultLimit, None))
  {
  }

  /** A non-numeric limit ("foo") is refused with the limit message. */
  lemma NonNumericLimitRejected()
    ensures FromIlluminate(Some(StringInput("foo")), None) == Failure(PaginationException.PaginationException(LimitMessage))
  {
    assert FilterInt("foo") == None by {
      TrimmedAlready("foo");
      assert !IsCanonicalNatural("foo") by { assert !ApiVersion.IsDigit("foo"[0]); }
    }
    assert Filled(Some(StringInput("foo"))) by {
      assert !IsBlankChar("foo"[0]);
    }
  }

  /** A cursor that is not a UUID ("foo") is refused with the cursor message. */
  lemma InvalidCursorRejected()
    ensures FromIlluminate(None, Some("foo")) == Failure(PaginationException.PaginationException(CursorMessage))
  {
    assert FilledString(Some("foo")) by {
      assert !IsBlankChar("foo"[0]);
    }
  }

  /** The string limit "10" of the test suite reads as 10. */
  lemma StringLimitSample()
    ensures FromIlluminate(Some(StringInput("10")), None) == Success(PaginatedRequest(10, None))
  {
    assert Decimal(10) == "10";
    DecimalLimit(10, None);
  }
}
