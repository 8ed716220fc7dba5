/**
 * Extraction of the EPSG code from `metadata.referenceSystem` (Program.epsgNum), with the
 * parts of .NET's `String.LastIndexOf`, `Substring` and `Int32.Parse` it relies on.
 */
module Crs {
  import opened Wrappers
  import opened CityModel

  /** What epsgNum returns when the document names no reference system. */
  const NoReferenceSystem: int := -1

  const Int32Min: int := -0x8000_0000
  const Int32Max: int := 0x7fff_ffff

  /** `String.LastIndexOf(c)`: the last position of `c` in `s`, or -1. */
  function LastIndexOf(s: string, c: char): (r: int)
    ensures -1 <= r < |s|
    ensures r >= 0 ==> s[r] == c
    ensures forall k :: r < k < |s| ==> s[k] != c
  {
    if s == [] then -1
    else if s[|s| - 1] == c then |s| - 1
    else LastIndexOf(s[..|s| - 1], c)
  }

  /**
   * The text epsgNum hands to Int32.Parse: what follows the last '/', or, when there is no
   * '/', what follows the last ':', or else the whole string.
   */
  function CodeText(rs: string): (t: string)
    ensures |t| <= |rs| && rs[|rs| - |t|..] == t
    ensures '/' !in t
    ensures '/' !in rs ==> ':' !in t
    ensures |t| < |rs| ==> rs[|rs| - |t| - 1] == '/' || ('/' !in rs && rs[|rs| - |t| - 1] == ':')
  {
    var slash := LastIndexOf(rs, '/');
    var found := if slash == -1 then LastIndexOf(rs, ':') else slash;
    rs[found + 1..]
  }

  /** The white space `NumberStyles.Integer` lets Int32.Parse skip at either end. */
  predicate IsWhite(c: char) {
    c == ' ' || '\t' <= c <= '\r'
  }

  predicate IsDigit(c: char) {
    '0' <= c <= '9'
  }

  predicate AllDigits(s: string) {
    forall k :: 0 <= k < |s| ==> IsDigit(s[k])
  }

  function TrimStart(s: string): (t: string)
    ensures t == [] || !IsWhite(t[0])
  {
    if s != [] && IsWhite(s[0]) then TrimStart(s[1..]) else s
  }

  function TrimEnd(s: string): (t: string)
    ensures t == [] || !IsWhite(t[|t| - 1])
  {
    if s != [] && IsWhite(s[|s| - 1]) then TrimEnd(s[..|s| - 1]) else s
  }

  /** The value of a string of decimal digits, most significant first. */
  function DigitsValue(s: string): nat
    requires AllDigits(s)
  {
    if s == [] then 0
    else 10 * DigitsValue(s[..|s| - 1]) + (s[|s| - 1] as int - '0' as int)
  }

  /**
   * `Int32.Parse` with `NumberStyles.Integer`: optional white space, an optional sign, at
   * least one digit, optional white space. A malformed string is a Format fault, a
   * well-formed one outside the 32-bit range an Overflow fault.
   */
  function ParseInt32(text: string): (r: Result<int>)
    ensures r.Ok? ==> Int32Min <= r.value <= Int32Max
    ensures r.Err? ==> r.fault == Format || r.fault == Overflow
  {
    ParseTrimmed(TrimEnd(TrimStart(text)))
  }

  /** The white space is gone: an optional sign, then the digits. */
  function ParseTrimmed(t: string): Result<int> {
    var signed := t != [] && (t[0] == '-' || t[0] == '+');
    var digits := if signed then t[1..] else t;
    if digits == [] || !AllDigits(digits) then Err(Format)
    else
      var n: int := if signed && t[0] == '-' then -(DigitsValue(digits) as int) else DigitsValue(digits);
      if n < Int32Min || Int32Max < n then Err(Overflow) else Ok(n)
  }

  /**
   * Program.epsgNum: the code at the end of `metadata.referenceSystem`, -1 when that member is
   * absent, and a binder fault when the whole `metadata` member is absent.
   */
  function EpsgNum(metadata: Option<Metadata>): (r: Result<int>)
    ensures metadata.None? ==> r == Err(NullBinding)
    ensures metadata.Some? && metadata.value.referenceSystem.None? ==> r == Ok(NoReferenceSystem)
    ensures metadata.Some? && metadata.value.referenceSystem.Some? ==>
      r == ParseInt32(CodeText(metadata.value.referenceSystem.value))
    ensures r.Ok? ==> r.value == NoReferenceSystem || Int32Min <= r.value <= Int32Max
  {
    if metadata.None? then Err(NullBinding)
    else match metadata.value.referenceSystem
      case None => Ok(NoReferenceSystem)
      case Some(rs) => ParseInt32(CodeText(rs))
  }

  // ---- the layout Int32.Parse accepts, stated without trimming ---------------------------

  predicate AllWhite(s: string) {
    forall k :: 0 <= k < |s| ==> IsWhite(s[k])
  }

  predicate IsSign(s: string) {
    s == "" || s == "-" || s == "+"
  }

  /** White space, a sign (possibly none), one or more digits, and white space. */
  predicate IntegerLayout(lead: string, sign: string, digits: string, trail: string) {
    AllWhite(lead) && IsSign(sign) && digits != [] && AllDigits(digits) && AllWhite(trail)
  }

  /** The value a layout denotes: the digits, negated after a '-'. */
  function SignedValue(sign: string, digits: string): int
    requires AllDigits(digits)
  {
    if sign == "-" then -(DigitsValue(digits) as int) else DigitsValue(digits)
  }

  /** A text Int32.Parse accepts in form: it splits into an integer layout. */
  ghost predicate WellFormed(text: string) {
    exists lead, sign, digits, trail ::
      IntegerLayout(lead, sign, digits, trail) && text == lead + sign + digits + trail
  }

  /** What Int32.Parse makes of a value: itself inside the 32-bit range, else an Overflow fault. */
  function InRange(n: int): Result<int> {
    if Int32Min <= n <= Int32Max then Ok(n) else Err(Overflow)
  }

  lemma {:induction false} TrimStartWhite(lead: string, body: string)
    requires AllWhite(lead) && body != [] && !IsWhite(body[0])
    ensures TrimStart(lead + body) == body
  {
    if lead != [] {
      assert (lead + body)[1..] == lead[1..] + body;
      TrimStartWhite(lead[1..], body);
    } else {
      assert lead + body == body;
    }
  }

  lemma {:induction false} TrimEndWhite(body: string, trail: string)
    requires AllWhite(trail) && body != [] && !IsWhite(body[|body| - 1])
    ensures TrimEnd(body + trail) == body
  {
    if trail != [] {
      assert (body + trail)[..|body + trail| - 1] == body + trail[..|trail| - 1];
      TrimEndWhite(body, trail[..|trail| - 1]);
    } else {
      assert body + trail == body;
    }
  }

  /** TrimStart removes white space, and only white space, from the front. */
  lemma {:induction false} TrimStartSplits(s: string)
    ensures |TrimStart(s)| <= |s| && s == s[..|s| - |TrimStart(s)|] + TrimStart(s)
    ensures AllWhite(s[..|s| - |TrimStart(s)|])
  {
    if s != [] && IsWhite(s[0]) {
      TrimStartSplits(s[1..]);
      var t := TrimStart(s[1..]);
      assert s[..|s| - |t|] == [s[0]] + s[1..][..|s| - 1 - |t|];
    }
  }

  /** TrimEnd removes white space, and only white space, from the back. */
  lemma {:induction false} TrimEndSplits(s: string)
    ensures |TrimEnd(s)| <= |s| && s == TrimEnd(s) + s[|TrimEnd(s)|..]
    ensures AllWhite(s[|TrimEnd(s)|..])
  {
    if s != [] && IsWhite(s[|s| - 1]) {
      var p := s[..|s| - 1];
      TrimEndSplits(p);
      var t := TrimEnd(p);
      assert s[|t|..] == p[|t|..] + [s[|s| - 1]];
    }
  }

  /** A sign and digits, with the white space gone, parse to their value or overflow. */
  lemma ParseSigned(sign: string, digits: string)
    requires IsSign(sign) && digits != [] && AllDigits(digits)
    ensures ParseTrimmed(sign + digits) == InRange(SignedValue(sign, digits))
  {
    var t := sign + digits;
    if sign != "" {
      assert t[0] == sign[0] && t[1..] == digits;
    } else {
      assert t == digits && IsDigit(t[0]);
    }
  }

  /** A text in integer layout parses to its value, or overflows. */
  lemma ParseLayout(lead: string, sign: string, digits: string, trail: string)
    requires IntegerLayout(lead, sign, digits, trail)
    ensures ParseInt32(lead + sign + digits + trail) == InRange(SignedValue(sign, digits))
  {
    var t := sign + digits;
    assert t[0] == if sign == "" then digits[0] else sign[0];
    assert t[|t| - 1] == digits[|digits| - 1];
    JoinLayout(lead + sign + digits + trail, lead, t + trail, t, trail, sign, digits);
    TrimStartWhite(lead, t + trail);
    TrimEndWhite(t, trail);
    ParseSigned(sign, digits);
  }

  /** A text Int32.Parse does not refuse as malformed is in integer layout. */
  lemma ParsedLayout(text: string) returns (lead: string, sign: string, digits: string, trail: string)
    requires ParseInt32(text) != Err(Format)
    ensures IntegerLayout(lead, sign, digits, trail) && text == lead + sign + digits + trail
  {
    var s := TrimStart(text);
    var t := TrimEnd(s);
    TrimStartSplits(text);
    TrimEndSplits(s);
    lead := text[..|text| - |s|];
    trail := s[|t|..];
    var signed := t != [] && (t[0] == '-' || t[0] == '+');
    sign := if signed then t[..1] else "";
    digits := if signed then t[1..] else t;
    assert ParseTrimmed(t) != Err(Format);
    assert digits != [] && AllDigits(digits);
    assert t == sign + digits;
    JoinLayout(text, lead, s, t, trail, sign, digits);
  }

  lemma JoinLayout(text: string, lead: string, s: string, t: string, trail: string, sign: string, digits: string)
    requires s == t + trail && t == sign + digits
    ensures text == lead + s <==> text == lead + sign + digits + trail
  {
  }

  /**
   * Int32.Parse answers a Format fault exactly for the texts that are not in integer layout,
   * and otherwise the value of the layout, or an Overflow fault outside the 32-bit range.
   */
  lemma ParseInt32Accepts(text: string)
    ensures ParseInt32(text) == Err(Format) <==> !WellFormed(text)
    ensures WellFormed(text) ==> exists lead, sign, digits, trail ::
      IntegerLayout(lead, sign, digits, trail) && text == lead + sign + digits + trail &&
      ParseInt32(text) == InRange(SignedValue(sign, digits))
  {
    if WellFormed(text) {
      var lead, sign, digits, trail :| IntegerLayout(lead, sign, digits, trail) && text == lead + sign + digits + trail;
      ParseLayout(lead, sign, digits, trail);
    } else if ParseInt32(text) != Err(Format) {
      var lead, sign, digits, trail := ParsedLayout(text);
      assert false;
    }
  }

  // ---- decimal rendering, the partner of parsing -------------------------------------

  /** The decimal rendering of a natural number, without leading zeros. */
  function Decimal(n: nat): (s: string)
  {
    if n < 10 then [('0' as int + n) as char]
    else Decimal(n / 10) + [('0' as int + n % 10) as char]
  }

  lemma {:induction false} DecimalDigits(n: nat)
    ensures Decimal(n) != [] && AllDigits(Decimal(n)) && DigitsValue(Decimal(n)) == n
  {
    if n >= 10 {
      DecimalDigits(n / 10);
      var s := Decimal(n);
      assert s[..|s| - 1] == Decimal(n / 10);
    }
  }

  /** Int32.Parse reads back every code that Decimal renders. */
  lemma ParseDecimal(n: nat)
    requires n <= Int32Max
    ensures ParseInt32(Decimal(n)) == Ok(n)
  {
    DecimalDigits(n);
    var s := Decimal(n);
    assert !IsWhite(s[0]) && !IsWhite(s[|s| - 1]);
    assert TrimStart(s) == s;
    assert TrimEnd(s) == s;
  }

  /** A leading minus sign negates the code, down to the 32-bit minimum. */
  lemma ParseNegativeDecimal(n: nat)
    requires n <= -Int32Min
    ensures ParseInt32("-" + Decimal(n)) == Ok(-(n as int))
  {
    DecimalDigits(n);
    var s := "-" + Decimal(n);
    assert TrimStart(s) == s;
    assert !IsWhite(s[|s| - 1]);
    assert TrimEnd(s) == s;
    assert s[1..] == Decimal(n);
  }

  /** Joining a prefix and a tail free of `c` with `c` puts the last `c` at the join. */
  lemma LastIndexOfJoin(prefix: string, c: char, tail: string)
    requires c !in tail
    ensures LastIndexOf(prefix + [c] + tail, c) == |prefix|
  {
    var s := prefix + [c] + tail;
    var r := LastIndexOf(s, c);
    assert s[|prefix|] == c;
    assert s[|prefix| + 1..] == tail;
    assert r >= |prefix|;
  }

  lemma DecimalHasOnlyDigits(n: nat)
    ensures '/' !in Decimal(n) && ':' !in Decimal(n)
  {
    DecimalDigits(n);
  }

  /** The text after the last '/' of a URL-style reference system is its code. */
  lemma EpsgNumOfUrl(prefix: string, code: nat)
    requires code <= Int32Max
    ensures EpsgNum(Some(Metadata(Some(prefix + "/" + Decimal(code))))) == Ok(code)
  {
    var rs := prefix + "/" + Decimal(code);
    DecimalHasOnlyDigits(code);
    LastIndexOfJoin(prefix, '/', Decimal(code));
    assert rs[|prefix| + 1..] == Decimal(code);
    ParseDecimal(code);
  }

  /** Without a '/', the text after the last ':' (as in "EPSG:7415") is the code. */
  lemma EpsgNumOfUrn(prefix: string, code: nat)
    requires code <= Int32Max && '/' !in prefix
    ensures EpsgNum(Some(Metadata(Some(prefix + ":" + Decimal(code))))) == Ok(code)
  {
    var tail := Decimal(code);
    var rs := prefix + [':'] + tail;
    assert prefix + ":" + tail == rs;
    DecimalHasOnlyDigits(code);
    forall k | 0 <= k < |rs| ensures rs[k] != '/' {
      if k < |prefix| {
        assert rs[k] == prefix[k];
      } else if k > |prefix| {
        assert rs[k] == tail[k - |prefix| - 1];
      }
    }
    assert LastIndexOf(rs, '/') == -1;
    LastIndexOfJoin(prefix, ':', tail);
    assert CodeText(rs) == tail;
    ParseDecimal(code);
  }

  /** A reference system that ends in its separator, with the code missing, is a Format fault. */
  lemma EpsgNumOfMissingCode(prefix: string)
    ensures EpsgNum(Some(Metadata(Some(prefix + "/")))) == Err(Format)
  {
    LastIndexOfJoin(prefix, '/', "");
    assert prefix + "/" == prefix + ['/'] + "";
  }
}
