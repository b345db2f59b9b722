/** Decoding and validation of the form fields of a create request:
    the secret text, the number of permitted views and the lifetime in
    minutes. */
module Request {
  import opened Wrappers
  import opened Errors

  /** One minute in nanoseconds, the unit of durations. */
  const Minute := 60_000_000_000

  predicate IsDigit(c: char)
  {
    '0' <= c <= '9'
  }

  function DigitValue(c: char): nat
    requires IsDigit(c)
  {
    c as int - '0' as int
  }

  function DigitChar(d: nat): (c: char)
    requires d < 10
    ensures IsDigit(c) && DigitValue(c) == d
  {
    ('0' as int + d) as char
  }

  predicate AllDigits(s: string)
  {
    forall i :: 0 <= i < |s| ==> IsDigit(s[i])
  }

  predicate IsSign(c: char)
  {
    c == '+' || c == '-'
  }

  /** The text accepted as a decimal integer: an optional sign followed by
      at least one digit, and nothing else. */
  predicate IsDecimal(s: string)
  {
    if |s| > 0 && IsSign(s[0]) then |s| > 1 && AllDigits(s[1..])
    else |s| > 0 && AllDigits(s)
  }

  /** Scan digits left to right, folding them into the accumulator `acc`;
      fails on the first non-digit. */
  function ScanDigits(ds: string, acc: nat): Option<nat>
    decreases |ds|
  {
    if |ds| == 0 then Some(acc)
    else if IsDigit(ds[0]) then ScanDigits(ds[1..], acc * 10 + DigitValue(ds[0]))
    else None
  }

  lemma {:induction false} ScanDigitsAccepts(ds: string, acc: nat)
    ensures ScanDigits(ds, acc).Some? <==> AllDigits(ds)
    decreases |ds|
  {
    if |ds| > 0 {
      ScanDigitsAccepts(ds[1..], acc * 10 + (if IsDigit(ds[0]) then DigitValue(ds[0]) else 0));
      if IsDigit(ds[0]) && !AllDigits(ds) {
        var i :| 0 <= i < |ds| && !IsDigit(ds[i]);
        assert ds[1..][i - 1] == ds[i];
      }
    }
  }

  /** Scanning a concatenation is scanning the second part from where the
      first part left the accumulator. */
  lemma {:induction false} ScanDigitsAppend(a: string, b: string, acc: nat)
    ensures ScanDigits(a + b, acc) ==
            (match ScanDigits(a, acc) case None => None case Some(v) => ScanDigits(b, v))
    decreases |a|
  {
    if |a| > 0 {
      assert (a + b)[1..] == a[1..] + b;
      if IsDigit(a[0]) {
        ScanDigitsAppend(a[1..], b, acc * 10 + DigitValue(a[0]));
      }
    } else {
      assert a + b == b;
    }
  }

  /** The positional value of a digit string: the value of all digits but
      the last, times ten, plus the last. */
  function DecValue(ds: string): nat
    requires AllDigits(ds)
    decreases |ds|
  {
    if |ds| == 0 then 0 else DecValue(ds[..|ds| - 1]) * 10 + DigitValue(ds[|ds| - 1])
  }

  /** Scanning a digit string from zero yields its positional value. */
  lemma {:induction false} ScanDigitsValue(ds: string)
    requires AllDigits(ds)
    ensures ScanDigits(ds, 0) == Some(DecValue(ds))
    decreases |ds|
  {
    if |ds| > 0 {
      var init := ds[..|ds| - 1];
      var last := ds[|ds| - 1];
      assert ds == init + [last];
      ScanDigitsValue(init);
      ScanDigitsAppend(init, [last], 0);
      assert ScanDigits([last], DecValue(init)) == ScanDigits([], DecValue(init) * 10 + DigitValue(last));
    }
  }

  /** The value of a non-empty digit sequence. */
  function ParseDigits(ds: string): (r: Option<nat>)
    ensures r.Some? <==> |ds| > 0 && AllDigits(ds)
    ensures r.Some? ==> r.value == DecValue(ds)
  {
    ScanDigitsAccepts(ds, 0);
    if |ds| == 0 then None
    else if AllDigits(ds) then ScanDigitsValue(ds); ScanDigits(ds, 0)
    else ScanDigits(ds, 0)
  }

  /** Decimal integer parsing: an optional sign and at least one digit. */
  function ParseDecimal(s: string): (r: Option<int>)
    ensures r.Some? <==> IsDecimal(s)
    ensures r.Some? && IsSign(s[0]) ==>
            r.value == (if s[0] == '-' then -(DecValue(s[1..]) as int) else DecValue(s[1..]))
    ensures r.Some? && !IsSign(s[0]) ==> r.value == DecValue(s)
  {
    if |s| > 0 && IsSign(s[0]) then
      match ParseDigits(s[1..])
      case None => None
      case Some(v) => Some(if s[0] == '-' then -(v as int) else v as int)
    else ParseDigits(s)
  }

  /** A leading '+', leading zeros and a negative zero are all accepted. */
  lemma ParseUnusualForms()
    ensures ParseDecimal("+5") == Some(5)
    ensures ParseDecimal("007") == Some(7)
    ensures ParseDecimal("-0") == Some(0)
  {
  }

  /** Decimal rendering of a natural number, most significant digit first. */
  function FormatNat(m: nat): (r: string)
    ensures |r| > 0 && AllDigits(r)
    decreases m
  {
    if m < 10 then [DigitChar(m)] else FormatNat(m / 10) + [DigitChar(m % 10)]
  }

  /** Decimal rendering of an integer, with a '-' for negative values. */
  function FormatDecimal(n: int): (r: string)
    ensures IsDecimal(r)
  {
    if n < 0 then "-" + FormatNat(-n) else FormatNat(n)
  }

  lemma {:induction false} ScanFormatNat(m: nat)
    ensures ScanDigits(FormatNat(m), 0) == Some(m)
    decreases m
  {
    if m >= 10 {
      ScanFormatNat(m / 10);
      ScanDigitsAppend(FormatNat(m / 10), [DigitChar(m % 10)], 0);
      assert ScanDigits([DigitChar(m % 10)], m / 10) == ScanDigits([], (m / 10) * 10 + m % 10);
    }
  }

  /** Parsing the decimal rendering of an integer gives the integer back. */
  lemma ParseFormatRoundTrip(n: int)
    ensures ParseDecimal(FormatDecimal(n)) == Some(n)
  {
    if n < 0 {
      ScanFormatNat(-n);
      assert ("-" + FormatNat(-n))[1..] == FormatNat(-n);
    } else {
      ScanFormatNat(n);
    }
  }

  /** The decoded create request. `expireAfter` is a duration in nanoseconds. */
  datatype AddSecret = AddSecret(secret: string, expireAfterViews: int, expireAfter: int)

  /** The text of the error the integer parser reports for `s`; the
      parser's escaping of unusual characters is not modelled. */
  function Quote(s: string): string
  {
    "\"" + s + "\""
  }

  function SyntaxError(s: string): AppError
  {
    Plain("strconv.Atoi: parsing " + Quote(s) + ": invalid syntax")
  }

  /** Decode the three form fields; the view count is decoded first, so a
      bad view count is the error reported when both are bad. */
  function NewAddSecret(secret: string, expireAfterViews: string, expireAfter: string): (r: Result<AddSecret, AppError>)
    ensures r.Success? <==> IsDecimal(expireAfterViews) && IsDecimal(expireAfter)
    ensures !IsDecimal(expireAfterViews) ==> r == Failure(SyntaxError(expireAfterViews))
    ensures IsDecimal(expireAfterViews) && !IsDecimal(expireAfter) ==> r == Failure(SyntaxError(expireAfter))
    ensures r.Success? ==> r.value.secret == secret
    ensures r.Success? ==> ParseDecimal(expireAfterViews) == Some(r.value.expireAfterViews)
    ensures r.Success? ==> r.value.expireAfter == ParseDecimal(expireAfter).value * Minute
  {
    match ParseDecimal(expireAfterViews)
    case None => Failure(SyntaxError(expireAfterViews))
    case Some(views) =>
      match ParseDecimal(expireAfter)
      case None => Failure(SyntaxError(expireAfter))
      case Some(minutes) => Success(AddSecret(secret, views, minutes * Minute))
  }

  /** Form fields rendered from integers decode back to those integers,
      the lifetime scaled to a duration; the text is kept verbatim. */
  lemma NewAddSecretOfFormatted(secret: string, views: int, minutes: int)
    ensures NewAddSecret(secret, FormatDecimal(views), FormatDecimal(minutes))
            == Success(AddSecret(secret, views, minutes * Minute))
  {
    ParseFormatRoundTrip(views);
    ParseFormatRoundTrip(minutes);
  }

  /** Check the decoded request: the text must be non-empty and at least
      one view must be permitted; the text is checked first and the
      lifetime is not checked at all. */
  function Validate(a: AddSecret): (r: Option<AppError>)
    ensures r.None? <==> a.secret != "" && a.expireAfterViews >= 1
    ensures a.secret == "" ==> r == Some(Plain("empty secret"))
    ensures a.secret != "" && a.expireAfterViews < 1 ==> r == Some(Plain("ExpireAfterViews not valid"))
  {
    if a.secret == "" then Some(Plain("empty secret"))
    else if a.expireAfterViews < 1 then Some(Plain("ExpireAfterViews not valid"))
    else None
  }
}
