/**
  Header and digest parsing helpers used by the HTTP-based providers:
  the Content-Length and Last-Modified header lookups (section 8.6 of
  RFC 9110 for Content-Length) and the decoding of a hex MD5 digest
  (base16, section 8 of RFC 4648).

  An HTTP header set is a map from the canonical header name to its list
  of values, as Go's `http.Header` is.
 */
module ClientParse {
  import opened Wrappers
  import opened Objstore

  type Header = map<string, seq<string>>

  // ---------------------------------------------------------------------
  // Decimal integers, as strconv.ParseInt(s, 10, 64) reads them
  // ---------------------------------------------------------------------

  datatype ParseIntError = Syntax | Range

  predicate IsDigit(c: char) { '0' <= c <= '9' }

  function DigitValue(c: char): (d: nat)
    requires IsDigit(c)
    ensures d < 10
  {
    (c as int) - ('0' as int)
  }

  predicate AllDigits(s: string) { forall i :: 0 <= i < |s| ==> IsDigit(s[i]) }

  /** The value of a string of decimal digits, most significant first. */
  function DecimalValue(s: string): nat
    requires AllDigits(s)
  {
    if s == [] then 0 else 10 * DecimalValue(s[..|s| - 1]) + DigitValue(s[|s| - 1])
  }

  /** The number of leading decimal digits of `t`. */
  function DigitRun(t: string): (n: nat)
    ensures n <= |t| && AllDigits(t[..n])
    ensures n < |t| ==> !IsDigit(t[n])
  {
    if t == [] || !IsDigit(t[0]) then 0
    else
      var n := 1 + DigitRun(t[1..]);
      assert t[..n] == [t[0]] + t[1..][..n - 1];
      n
  }

  /** A longer run of digits never has a smaller value. */
  lemma {:induction false} DecimalValuePrefix(t: string, i: nat, j: nat)
    requires i <= j <= |t| && AllDigits(t[..j])
    ensures DecimalValue(t[..i]) <= DecimalValue(t[..j])
  {
    if i < j {
      assert t[..j][..j - 1] == t[..j - 1];
      DecimalValuePrefix(t, i, j - 1);
    }
  }

  /**
    strconv.ParseUint(t, 10, 64) after the digits t[..k] were read: it
    goes on digit by digit, failing with a syntax error at the first
    character that is not a digit and with a range error as soon as the
    value read so far exceeds MaxUint64.
   */
  function ParseDigitsFrom(t: string, k: nat): (r: Result<nat, ParseIntError>)
    requires k <= |t| && AllDigits(t[..k]) && DecimalValue(t[..k]) <= MaxUint64
    ensures var v := DecimalValue(t[..DigitRun(t)]);
      r == if v > MaxUint64 then Err(Range) else if DigitRun(t) < |t| then Err(Syntax) else Ok(v)
    decreases |t| - k
  {
    if k == |t| then
      assert t[..k] == t[..DigitRun(t)];
      Ok(DecimalValue(t[..k]))
    else if !IsDigit(t[k]) then
      assert DigitRun(t) == k;
      Err(Syntax)
    else
      assert t[..k + 1][..k] == t[..k];
      if DecimalValue(t[..k + 1]) > MaxUint64 then
        DecimalValuePrefix(t, k + 1, DigitRun(t));
        Err(Range)
      else ParseDigitsFrom(t, k + 1)
  }

  /** `s` without one leading '+' or '-'. */
  function Unsigned(s: string): string
  {
    if s != [] && (s[0] == '+' || s[0] == '-') then s[1..] else s
  }

  /** An optional sign followed by at least one decimal digit and nothing else. */
  predicate IsDecimal(s: string)
  {
    Unsigned(s) != [] && AllDigits(Unsigned(s))
  }

  /** The integer a decimal string denotes. */
  function SignedValue(s: string): int
    requires IsDecimal(s)
  {
    if s[0] == '-' then -(DecimalValue(Unsigned(s)) as int) else DecimalValue(Unsigned(s))
  }

  /**
    strconv.ParseInt(s, 10, 64): an optional sign, then the digits read by
    ParseUint; a value outside the int64 range is a range error.  Because
    ParseUint stops as soon as its value passes MaxUint64, a long enough
    run of digits is a range error even when a bad character follows.
   */
  function ParseInt64(s: string): (r: Result<int, ParseIntError>)
    ensures r.Ok? ==> MinInt64 <= r.value <= MaxInt64
    ensures s == [] ==> r == Err(Syntax)
    ensures r.Ok? <==> IsDecimal(s) && IsInt64(SignedValue(s))
    ensures r.Ok? ==> r.value == SignedValue(s)
    ensures r == Err(Range) <==>
      MaxUint64 < DecimalValue(Unsigned(s)[..DigitRun(Unsigned(s))]) || (IsDecimal(s) && !IsInt64(SignedValue(s)))
  {
    if s == [] then Err(Syntax)
    else
      var neg := s[0] == '-';
      var digits := Unsigned(s);
      if digits == [] then Err(Syntax)
      else
        assert digits[..0] == [];
        assert AllDigits(digits) ==> DigitRun(digits) == |digits| && digits[..|digits|] == digits;
        match ParseDigitsFrom(digits, 0)
        case Err(e) => Err(e)
        case Ok(u) =>
          assert digits[..|digits|] == digits;
          if !neg && u > MaxInt64 then Err(Range)
          else if neg && u > -MinInt64 then Err(Range)
          else Ok(if neg then -(u as int) else u)
  }

  /** A sign and leading zeros are accepted. */
  lemma ParseInt64AcceptsSignAndZeros()
    ensures ParseInt64("+7") == Ok(7) && ParseInt64("-007") == Ok(-7)
  {
    assert Unsigned("+7") == "7";
    assert DecimalValue("7") == 7;
    var z := "007";
    assert Unsigned("-007") == z && z[..2] == "00" && z[..2][..1] == "0";
    assert DecimalValue(z) == 7;
  }

  /** A bad character, a sign alone and a doubled sign are syntax errors. */
  lemma ParseInt64SyntaxErrors()
    ensures ParseInt64("7x") == Err(Syntax) && ParseInt64("+") == Err(Syntax) && ParseInt64("--7") == Err(Syntax)
  {
    assert Unsigned("7x") == "7x" && !IsDigit("7x"[1]) && "7x"[..1] == "7";
    assert DecimalValue("7") == 7;
    assert Unsigned("--7") == "-7" && DigitRun("-7") == 0;
  }

  /** DigitRun is the only length whose prefix is all digits and is followed by a non-digit or the end. */
  lemma DigitRunIs(t: string, n: nat)
    requires n <= |t| && AllDigits(t[..n]) && (n < |t| ==> !IsDigit(t[n]))
    ensures DigitRun(t) == n
  {
  }

  function Pow10(k: nat): nat
  {
    if k == 0 then 1 else 10 * Pow10(k - 1)
  }

  /** A run of k nines is worth 10^k - 1. */
  lemma {:induction false} NinesValue(t: string, k: nat)
    requires k <= |t| && forall i :: 0 <= i < k ==> t[i] == '9'
    ensures AllDigits(t[..k]) && DecimalValue(t[..k]) == Pow10(k) - 1
  {
    if k > 0 {
      assert t[..k][..k - 1] == t[..k - 1];
      NinesValue(t, k - 1);
    }
  }

  /** Twenty nines pass MaxUint64, so a bad character after them is never reached: a range error, as in "99999999999999999999x". */
  lemma ParseInt64OverflowBeforeBadChar(s: string)
    requires |s| > 20 && (forall i :: 0 <= i < 20 ==> s[i] == '9') && !IsDigit(s[20])
    ensures ParseInt64(s) == Err(Range)
  {
    assert Unsigned(s) == s;
    DigitRunIs(s, 20);
    NinesValue(s, 20);
    assert Pow10(5) == 100_000;
    assert Pow10(10) == 10_000_000_000;
    assert Pow10(15) == 1_000_000_000_000_000;
    assert Pow10(20) == 100_000_000_000_000_000_000;
    assert DecimalValue(Unsigned(s)[..DigitRun(Unsigned(s))]) > MaxUint64;
  }

  function DigitChar(d: nat): (c: char)
    requires d < 10
    ensures IsDigit(c) && DigitValue(c) == d
  {
    ('0' as int + d) as char
  }

  /** The decimal digits of a natural number, without leading zeros. */
  function DecimalDigits(n: nat): (s: string)
    ensures s != [] && AllDigits(s)
  {
    if n < 10 then [DigitChar(n)] else DecimalDigits(n / 10) + [DigitChar(n % 10)]
  }

  /** The text strconv.FormatInt(n, 10) produces. */
  function FormatInt(n: int): string
  {
    if n < 0 then "-" + DecimalDigits(-n) else DecimalDigits(n)
  }

  lemma {:induction false} DecimalDigitsValue(n: nat)
    ensures DecimalValue(DecimalDigits(n)) == n
  {
    if n >= 10 {
      var s := DecimalDigits(n);
      assert s[..|s| - 1] == DecimalDigits(n / 10);
      DecimalDigitsValue(n / 10);
    }
  }

  /** Every int64 survives formatting and parsing back. */
  lemma ParseFormatRoundTrip(n: int)
    requires MinInt64 <= n <= MaxInt64
    ensures ParseInt64(FormatInt(n)) == Ok(n)
  {
    var s := FormatInt(n);
    if n < 0 {
      var digits := DecimalDigits(-n);
      DecimalDigitsValue(-n);
      assert s[0] == '-' && s[1..] == digits;
    } else {
      var digits := DecimalDigits(n);
      DecimalDigitsValue(n);
      assert IsDigit(digits[0]);
      assert s[0] != '-' && s[0] != '+' && s == digits;
    }
  }

  // ---------------------------------------------------------------------
  // Header lookups
  // ---------------------------------------------------------------------

  datatype HeaderError =
    | HeaderNotFound(name: string)
    | HeaderHasNoValues(name: string)
    | ConvertFailed(name: string, cause: ParseIntError)

  /** The text of a header error, as the error's Error() string begins. */
  function Message(e: HeaderError): string
  {
    match e
    case HeaderNotFound(n) => n + " header not found"
    case HeaderHasNoValues(n) => n + " header has no values"
    case ConvertFailed(n, _) => "convert " + n
  }

  /** The first value of a header; a missing key and an empty list are told apart. */
  function FirstValue(h: Header, name: string): (r: Result<string, HeaderError>)
    ensures name !in h ==> r == Err(HeaderNotFound(name))
    ensures name in h && h[name] == [] ==> r == Err(HeaderHasNoValues(name))
    ensures name in h && h[name] != [] ==> r == Ok(h[name][0])
  {
    if name !in h then Err(HeaderNotFound(name))
    else if |h[name]| == 0 then Err(HeaderHasNoValues(name))
    else Ok(h[name][0])
  }

  const ContentLength := "Content-Length"

  /** The object size announced by the Content-Length header. */
  function ParseContentLength(h: Header): (r: Result<int, HeaderError>)
    ensures ContentLength !in h ==> r == Err(HeaderNotFound(ContentLength))
    ensures ContentLength in h && h[ContentLength] == [] ==> r == Err(HeaderHasNoValues(ContentLength))
    ensures ContentLength in h && h[ContentLength] != [] ==>
      match ParseInt64(h[ContentLength][0])
      case Ok(v) => r == Ok(v)
      case Err(e) => r == Err(ConvertFailed(ContentLength, e))
  {
    var v :- FirstValue(h, ContentLength);
    match ParseInt64(v)
    case Ok(n) => Ok(n)
    case Err(e) => Err(ConvertFailed(ContentLength, e))
  }

  /** Only the first value is read: later values never change the result. */
  lemma ContentLengthUsesFirstValue(v: string, rest: seq<string>, others: Header)
    ensures ParseContentLength(others[ContentLength := [v] + rest]) == ParseContentLength(map[ContentLength := [v]])
  {
  }

  /** A formatted int64 is read back exactly. */
  lemma ContentLengthRoundTrip(h: Header, n: int)
    requires MinInt64 <= n <= MaxInt64
    requires ContentLength in h && h[ContentLength] != [] && h[ContentLength][0] == FormatInt(n)
    ensures ParseContentLength(h) == Ok(n)
  {
    ParseFormatRoundTrip(n);
  }

  lemma ContentLengthExamples()
    ensures ParseContentLength(map[ContentLength := ["12345"]]) == Ok(12345)
  {
    var v := "12345";
    assert DecimalValue(v) == 12345 by {
      assert v[..4] == "1234";
      assert "1234"[..3] == "123";
      assert "123"[..2] == "12";
      assert "12"[..1] == "1";
    }
    UnsignedDigits(v);
  }

  /** A missing header is reported by name. */
  lemma ContentLengthMissing()
    ensures Message(ParseContentLength(map[]).error) == "Content-Length header not found"
  {
  }

  /** A value that is not a number is a conversion failure with a syntax error. */
  lemma ContentLengthRejectsText()
    ensures ParseContentLength(map[ContentLength := ["invalid"]]) == Err(ConvertFailed(ContentLength, Syntax))
  {
    LeadingNonDigit("invalid");
  }

  /** An unsigned run of digits within int64 parses to its value. */
  lemma UnsignedDigits(s: string)
    requires s != [] && AllDigits(s) && DecimalValue(s) <= MaxInt64
    ensures ParseInt64(s) == Ok(DecimalValue(s))
  {
    assert Unsigned(s) == s;
  }

  /** Text starting with neither a sign nor a digit is a syntax error. */
  lemma LeadingNonDigit(s: string)
    requires s != [] && !IsDigit(s[0]) && s[0] != '+' && s[0] != '-'
    ensures ParseInt64(s) == Err(Syntax)
  {
    assert Unsigned(s) == s;
    DigitRunIs(s, 0);
  }

  const LastModified := "Last-Modified"

  /** The layout Go names RFC3339. */
  const RFC3339 := "2006-01-02T15:04:05Z07:00"

  /** What ParseLastModified hands to the time parser: the layout and the header's first value. */
  datatype TimeParseRequest = TimeParseRequest(layout: string, value: string)

  /**
    The header part of ParseLastModified.  Parsing the value against the
    layout is done by Go's time package and is not part of this model.
   */
  function LastModifiedRequest(h: Header, layout: string): (r: Result<TimeParseRequest, HeaderError>)
    ensures LastModified !in h ==> r == Err(HeaderNotFound(LastModified))
    ensures LastModified in h && h[LastModified] == [] ==> r == Err(HeaderHasNoValues(LastModified))
    ensures LastModified in h && h[LastModified] != [] ==>
      r.Ok? && r.value.value == h[LastModified][0] &&
      r.value.layout == (if layout == "" then RFC3339 else layout)
  {
    var v :- FirstValue(h, LastModified);
    Ok(TimeParseRequest(if layout == "" then RFC3339 else layout, v))
  }

  // ---------------------------------------------------------------------
  // MD5 digests
  // ---------------------------------------------------------------------

  /** The value of a hexadecimal digit (either case), or None. */
  function HexValue(c: char): (r: Option<nat>)
    ensures r.Some? ==> r.value < 16
  {
    if '0' <= c <= '9' then Some((c as int) - ('0' as int))
    else if 'a' <= c <= 'f' then Some((c as int) - ('a' as int) + 10)
    else if 'A' <= c <= 'F' then Some((c as int) - ('A' as int) + 10)
    else None
  }

  predicate AllHex(s: string) { forall i :: 0 <= i < |s| ==> HexValue(s[i]).Some? }

  /**
    What Go's hex.DecodeString returns alongside its error: the bytes
    decoded from the complete, valid pairs before the first invalid
    character or the dangling odd character.
   */
  function HexDecodePrefix(s: string): (r: seq<Byte>)
    ensures |r| <= |s| / 2
  {
    if |s| < 2 || HexValue(s[0]).None? || HexValue(s[1]).None? then []
    else [16 * HexValue(s[0]).value + HexValue(s[1]).value] + HexDecodePrefix(s[2..])
  }

  function TrimLeadingQuotes(s: string): (r: string)
    ensures |r| <= |s| && (r != [] ==> r[0] != '"')
  {
    if s != [] && s[0] == '"' then TrimLeadingQuotes(s[1..]) else s
  }

  function TrimTrailingQuotes(s: string): (r: string)
    ensures |r| <= |s| && (r != [] ==> r[|r| - 1] != '"')
  {
    if s != [] && s[|s| - 1] == '"' then TrimTrailingQuotes(s[..|s| - 1]) else s
  }

  /** strings.Trim(s, "\""): every leading and every trailing double quote removed. */
  function TrimQuotes(s: string): string
  {
    TrimTrailingQuotes(TrimLeadingQuotes(s))
  }

  /**
    ParseMD5 as written: trim the quotes, decode what hex.DecodeString
    decodes (ignoring its error) and keep the result only when it is
    exactly 16 bytes long; None stands for the nil slice.
   */
  function ParseMD5(md5Hex: string): (r: Option<seq<Byte>>)
    ensures r.Some? ==> |r.value| == 16
  {
    var decoded := HexDecodePrefix(TrimQuotes(md5Hex));
    if |decoded| != 16 then None else Some(decoded)
  }

  lemma {:induction false} TrimLeadingQuotesPrepend(s: string)
    ensures TrimLeadingQuotes("\"" + s) == TrimLeadingQuotes(s)
  {
    assert ("\"" + s)[1..] == s;
  }

  lemma {:induction false} TrimTrailingQuotesAppend(s: string)
    ensures TrimTrailingQuotes(s + "\"") == TrimTrailingQuotes(s)
  {
    assert (s + "\"")[..|s|] == s;
  }

  /** Removing leading quotes of `s + q` either removes everything or keeps the final quote. */
  lemma {:induction false} TrimLeadingQuotesAppend(s: string)
    ensures TrimTrailingQuotes(TrimLeadingQuotes(s + "\"")) == TrimTrailingQuotes(TrimLeadingQuotes(s))
    decreases |s|
  {
    if s == [] {
    } else if s[0] == '"' {
      assert (s + "\"")[1..] == s[1..] + "\"";
      TrimLeadingQuotesAppend(s[1..]);
    } else {
      TrimTrailingQuotesAppend(s);
    }
  }

  /** Surrounding a digest with quotes does not change what ParseMD5 returns. */
  lemma QuotedDigestSameBytes(s: string)
    ensures ParseMD5("\"" + s + "\"") == ParseMD5(s)
  {
    assert "\"" + s + "\"" == "\"" + (s + "\"");
    TrimLeadingQuotesPrepend(s + "\"");
    TrimLeadingQuotesAppend(s);
  }

  /** Byte k of a string of 32 hex digits is formed from digits 2k and 2k+1. */
  lemma {:induction false} HexDecodeAllHex(s: string)
    requires AllHex(s) && |s| % 2 == 0
    ensures |HexDecodePrefix(s)| == |s| / 2
    ensures forall k :: 0 <= k < |s| / 2 ==>
      HexDecodePrefix(s)[k] == 16 * HexValue(s[2 * k]).value + HexValue(s[2 * k + 1]).value
  {
    if |s| >= 2 {
      HexDecodeAllHex(s[2..]);
      forall k | 1 <= k < |s| / 2
        ensures HexDecodePrefix(s)[k] == 16 * HexValue(s[2 * k]).value + HexValue(s[2 * k + 1]).value
      {
        assert s[2..][2 * (k - 1)] == s[2 * k];
        assert s[2..][2 * (k - 1) + 1] == s[2 * k + 1];
      }
    }
  }

  lemma ParseMD5HexDigits(s: string)
    requires |s| == 32 && AllHex(s)
    ensures ParseMD5(s).Some?
    ensures forall k :: 0 <= k < 16 ==>
      ParseMD5(s).value[k] == 16 * HexValue(s[2 * k]).value + HexValue(s[2 * k + 1]).value
  {
    assert HexValue(s[0]).Some? && HexValue(s[31]).Some?;
    assert TrimLeadingQuotes(s) == s;
    assert TrimQuotes(s) == s;
    HexDecodeAllHex(s);
  }

  /** The lower-case hex digit of a nibble. */
  function HexDigit(n: nat): (c: char)
    requires n < 16
    ensures HexValue(c) == Some(n)
  {
    if n < 10 then ('0' as int + n) as char else ('a' as int + n - 10) as char
  }

  /** hex.EncodeToString: two lower-case digits per byte. */
  function HexEncode(b: seq<Byte>): (s: string)
    ensures |s| == 2 * |b| && AllHex(s)
  {
    if b == [] then [] else [HexDigit(b[0] / 16), HexDigit(b[0] % 16)] + HexEncode(b[1..])
  }

  lemma {:induction false} HexDecodeEncode(b: seq<Byte>)
    ensures HexDecodePrefix(HexEncode(b)) == b
  {
    if b != [] {
      var s := HexEncode(b);
      assert s[2..] == HexEncode(b[1..]);
      HexDecodeEncode(b[1..]);
    }
  }

  /** A 16-byte digest, hex encoded with or without quotes, parses back to itself. */
  lemma ParseMD5EncodeRoundTrip(b: seq<Byte>)
    requires |b| == 16
    ensures ParseMD5(HexEncode(b)) == Some(b)
    ensures ParseMD5("\"" + HexEncode(b) + "\"") == Some(b)
  {
    var s := HexEncode(b);
    assert HexValue(s[0]).Some? && HexValue(s[31]).Some?;
    assert TrimQuotes(s) == s;
    HexDecodeEncode(b);
    QuotedDigestSameBytes(s);
  }

  /** The inputs the tests call invalid yield nil. */
  lemma ParseMD5RejectsExamples()
    ensures ParseMD5("") == None
    ensures ParseMD5("\"\"") == None
    ensures ParseMD5("abc") == None
    ensures ParseMD5("not-a-hex-string") == None
    ensures ParseMD5("\"not-a-hex-string\"") == None
  {
    assert TrimLeadingQuotes("\"\"") == "";
    assert HexDecodePrefix("abc") == [0xab] by {
      assert "abc"[2..] == "c";
    }
    QuotedDigestSameBytes("not-a-hex-string");
  }

  /** A string too short to hold 32 hex digits after trimming is never accepted. */
  lemma ParseMD5NeedsThirtyTwoDigits(s: string)
    requires |TrimQuotes(s)| < 32
    ensures ParseMD5(s) == None
  {
  }

  /**
    The evidently intended digest parser: the trimmed text must be exactly
    32 hex digits.
   */
  function ParseMD5Strict(md5Hex: string): (r: Option<seq<Byte>>)
    ensures r.Some? ==> |r.value| == 16
  {
    var trimmed := TrimQuotes(md5Hex);
    if |trimmed| == 32 && AllHex(trimmed) then
      HexDecodeAllHex(trimmed);
      Some(HexDecodePrefix(trimmed))
    else None
  }

  /** The strict parser accepts exactly the 32-digit strings, and agrees with ParseMD5 on them. */
  lemma ParseMD5StrictAccepts(s: string)
    ensures ParseMD5Strict(s).Some? <==> |TrimQuotes(s)| == 32 && AllHex(TrimQuotes(s))
    ensures ParseMD5Strict(s).Some? ==> ParseMD5(s) == ParseMD5Strict(s)
  {
    if |TrimQuotes(s)| == 32 && AllHex(TrimQuotes(s)) {
      HexDecodeAllHex(TrimQuotes(s));
    }
  }

  /**
    As written, ParseMD5 also accepts 32 hex digits followed by a
    malformed tail: a 33rd hex digit leaves an odd length, which
    hex.DecodeString reports as an error after decoding 16 bytes, and
    that error is ignored.  The strict parser rejects the same text.
   */
  lemma ParseMD5AcceptsMalformedTail(b: seq<Byte>, d: char)
    requires |b| == 16 && HexValue(d).Some?
    ensures ParseMD5(HexEncode(b) + [d]) == Some(b)
    ensures ParseMD5Strict(HexEncode(b) + [d]) == None
  {
    var head := HexEncode(b);
    var s := head + [d];
    assert HexValue(s[0]).Some?;
    assert TrimQuotes(s) == s;
    HexDecodePrefixExtends(head, [d]);
    HexDecodeEncode(b);
  }

  /** Appending a single character to an even run of hex digits adds no byte. */
  lemma {:induction false} HexDecodePrefixExtends(s: string, tail: string)
    requires AllHex(s) && |s| % 2 == 0 && |tail| == 1
    ensures HexDecodePrefix(s + tail) == HexDecodePrefix(s)
  {
    if |s| >= 2 {
      assert (s + tail)[2..] == s[2..] + tail;
      HexDecodePrefixExtends(s[2..], tail);
    }
  }
}
