/** The hand-off of a record id from the capture and upload pages to the
    scan-result page: `redirectToScanResult` writes the id into the query
    string, and the result page reads it back with `URLSearchParams` and
    `parseInt`. */
module Urls {
  import opened Wrappers

  const ScanResultPage: string := "../scan_result/scan_result.html"

  predicate IsDigit(c: char) {
    '0' <= c <= '9'
  }

  function DigitChar(d: nat): (c: char)
    requires d < 10
    ensures IsDigit(c) && (c - '0') as int == d
  {
    ('0' as int + d) as char
  }

  /** The value of a digit in base `radix` (10 or 16), or `None` when `c` is
      not a digit of that base. */
  function DigitValue(c: char, radix: nat): (r: Option<nat>)
    ensures r.Some? ==> r.value < radix
    ensures radix == 10 ==> (r.Some? <==> IsDigit(c))
    ensures radix == 10 && IsDigit(c) ==> r == Some((c - '0') as nat)
  {
    var v: int :=
      if '0' <= c <= '9' then (c - '0') as int
      else if 'a' <= c <= 'z' then (c - 'a') as int + 10
      else if 'A' <= c <= 'Z' then (c - 'A') as int + 10
      else radix;
    if v < radix then Some(v) else None
  }

  /** The decimal text of a number, as `${n}` writes a non-negative integer
      below 10^21. */
  function NatToDecimal(n: nat): (s: string)
    ensures |s| >= 1
    ensures forall i :: 0 <= i < |s| ==> IsDigit(s[i])
    ensures s[0] == '0' ==> n == 0
    decreases n
  {
    if n < 10 then [DigitChar(n)] else NatToDecimal(n / 10) + [DigitChar(n % 10)]
  }

  /** The number of leading characters of `s` that are digits of `radix`. */
  function DigitRun(s: string, radix: nat): (k: nat)
    ensures k <= |s|
    ensures forall i :: 0 <= i < k ==> DigitValue(s[i], radix).Some?
    ensures k < |s| ==> DigitValue(s[k], radix).None?
    decreases |s|
  {
    if s == [] || DigitValue(s[0], radix).None? then 0 else 1 + DigitRun(s[1..], radix)
  }

  /** The value of a run of digits of `radix`, most significant first. */
  function DigitsValue(s: string, radix: nat): nat
    requires forall i :: 0 <= i < |s| ==> DigitValue(s[i], radix).Some?
    decreases |s|
  {
    if s == [] then 0
    else DigitsValue(s[..|s| - 1], radix) * radix + DigitValue(s[|s| - 1], radix).value
  }

  /** The white space and line terminators `parseInt` skips (the common
      ones; the other Unicode space separators are left out). */
  predicate IsJsSpace(c: char) {
    || c == ' ' || c == '\t' || c == '\n' || c == '\r'
    || c == '\U{000B}' || c == '\U{000C}' || c == '\U{00A0}'
    || c == '\U{FEFF}' || c == '\U{2028}' || c == '\U{2029}'
  }

  function TrimStart(s: string): (r: string)
    ensures |r| <= |s| && r == s[|s| - |r|..]
    ensures r != [] ==> !IsJsSpace(r[0])
    decreases |s|
  {
    if s != [] && IsJsSpace(s[0]) then TrimStart(s[1..]) else s
  }

  /** What `parseInt` reads before the digits: the sign, the base, and the
      text where the digits start. */
  datatype Numeral = Numeral(negative: bool, radix: nat, digits: string)

  /** Skips leading white space, reads one sign, and takes a `0x`/`0X`
      prefix as base 16; otherwise the base is 10. */
  function ScanNumeral(s: string): (n: Numeral)
    ensures n.radix == 10 || n.radix == 16
  {
    var t := TrimStart(s);
    var negative := t != [] && t[0] == '-';
    var u := if t != [] && (t[0] == '-' || t[0] == '+') then t[1..] else t;
    if |u| >= 2 && u[0] == '0' && (u[1] == 'x' || u[1] == 'X') then Numeral(negative, 16, u[2..])
    else Numeral(negative, 10, u)
  }

  /** `parseInt(s)` with no radix, where `None` stands for `NaN`: the
      longest run of digits after the sign and prefix is converted, and no
      digits at all gives `NaN`. `-0` is taken as 0. */
  function ParseInt(s: string): (r: Option<int>)
    ensures var t := TrimStart(s);
      t == [] || (!IsDigit(t[0]) && t[0] != '-' && t[0] != '+') ==> r.None?
  {
    var num := ScanNumeral(s);
    var k := DigitRun(num.digits, num.radix);
    if k == 0 then None
    else
      var magnitude: int := DigitsValue(num.digits[..k], num.radix);
      Some(if num.negative then -magnitude else magnitude)
  }

  /** The position of the first `c` in `s`. */
  function IndexOf(s: string, c: char): (r: Option<nat>)
    ensures r.None? <==> c !in s
    ensures r.Some? ==> r.value < |s| && s[r.value] == c && c !in s[..r.value]
    decreases |s|
  {
    if s == [] then None
    else if s[0] == c then Some(0)
    else
      var r := IndexOf(s[1..], c);
      assert s == [s[0]] + s[1..];
      if r.None? then None
      else
        assert s[..r.value + 1] == [s[0]] + s[1..][..r.value];
        Some(r.value + 1)
  }

  /** The first `c` in `a + [c] + b` is the one after `a` when `a` holds
      none. */
  lemma IndexOfAfterPrefix(a: string, c: char, b: string)
    requires c !in a
    ensures IndexOf(a + [c] + b, c) == Some(|a|)
  {
    var s := a + [c] + b;
    assert s[|a|] == c;
  }

  /** The text before the first `c`, or all of `s`. */
  function Before(s: string, c: char): (r: string)
    ensures c !in r
    ensures c !in s ==> r == s
  {
    match IndexOf(s, c)
    case None => s
    case Some(i) => s[..i]
  }

  /** The text after the first `c`, if there is a `c`. */
  function After(s: string, c: char): (r: Option<string>)
    ensures r.None? <==> c !in s
    ensures r.Some? ==> |r.value| < |s| && s == Before(s, c) + [c] + r.value
  {
    match IndexOf(s, c)
    case None => None
    case Some(i) =>
      assert s == s[..i] + [c] + s[i + 1..];
      Some(s[i + 1..])
  }

  lemma SplitAtFirst(a: string, c: char, b: string)
    requires c !in a
    ensures Before(a + [c] + b, c) == a
    ensures After(a + [c] + b, c) == Some(b)
  {
    IndexOfAfterPrefix(a, c, b);
    var s := a + [c] + b;
    assert s[..|a|] == a;
    assert s[|a| + 1..] == b;
  }

  /** `redirectToScanResult(dataId)`: the result page, with `?id=` and the
      id appended only when the id is truthy (a number other than 0). */
  function ScanResultUrl(dataId: Option<nat>): (url: string)
    ensures ScanResultPage <= url
    ensures dataId.None? || dataId.value == 0 <==> url == ScanResultPage
  {
    if dataId.Some? && dataId.value != 0 then ScanResultPage + "?id=" + NatToDecimal(dataId.value)
    else ScanResultPage
  }

  /** `window.location.search` without its `?`: the fragment from the first
      `#` on is cut off first, and the query is what follows the first `?`
      before it (empty when there is none). */
  function QueryOf(url: string): (q: string)
    ensures '#' !in q
    ensures '?' !in Before(url, '#') ==> q == ""
    ensures '?' in Before(url, '#') ==>
      Before(url, '#') == Before(Before(url, '#'), '?') + ['?'] + q
  {
    var address := Before(url, '#');
    match After(address, '?')
    case None => ""
    case Some(rest) =>
      assert address == Before(address, '?') + ['?'] + rest;
      assert forall i :: 0 <= i < |rest| ==> rest[i] == address[|Before(address, '?')| + 1 + i];
      rest
  }

  /** A `?` inside the fragment does not start a query: such a URL has an
      empty `search`. */
  lemma FragmentIsNotQuery(page: string, fragment: string)
    requires '?' !in page && '#' !in page
    ensures QueryOf(page + ['#'] + fragment) == ""
  {
    SplitAtFirst(page, '#', fragment);
  }

  /** `new URLSearchParams(query).get(name)`: the value of the first
      `&`-separated pair whose name is `name`; a pair without `=` has the
      empty value. Percent-decoding is not modelled. */
  function ParamValue(query: string, name: string): (r: Option<string>)
    ensures '&' !in query && Before(query, '=') != name ==> r.None?
    decreases |query|
  {
    var pair := Before(query, '&');
    if pair != [] && Before(pair, '=') == name then Some(After(pair, '=').GetOr(""))
    else match After(query, '&')
      case None => None
      case Some(rest) => ParamValue(rest, name)
  }

  /** The id the scan-result page reads: `parseInt(params.get('id'))`, where
      a missing parameter is `null` and so parses as `NaN`. */
  function ScanIdOf(url: string): (id: Option<int>)
    ensures ParamValue(QueryOf(url), "id").None? ==> id.None?
  {
    var value := ParamValue(QueryOf(url), "id");
    ParseNullIsNaN();
    ParseInt(value.GetOr("null"))
  }

  /** `parseInt(null)` reads the text "null", which starts with no digit. */
  lemma ParseNullIsNaN()
    ensures ParseInt("null") == None
  {
    assert !IsJsSpace('n') && !IsDigit('n');
    assert TrimStart("null") == "null";
  }

  lemma {:induction false} DecimalValue(n: nat)
    ensures DigitsValue(NatToDecimal(n), 10) == n
    decreases n
  {
    if n >= 10 {
      var s := NatToDecimal(n);
      assert s[..|s| - 1] == NatToDecimal(n / 10);
      DecimalValue(n / 10);
    }
  }

  /** `parseInt` reads back the decimal text of every number. */
  lemma {:induction false} DigitRunOfDigits(s: string)
    requires forall i :: 0 <= i < |s| ==> IsDigit(s[i])
    ensures DigitRun(s, 10) == |s|
    decreases |s|
  {
    if s != [] {
      DigitRunOfDigits(s[1..]);
    }
  }

  lemma ScanDigits(s: string)
    requires |s| >= 1 && forall i :: 0 <= i < |s| ==> IsDigit(s[i])
    requires s[0] == '0' ==> |s| == 1
    ensures ScanNumeral(s) == Numeral(false, 10, s)
  {
    assert !IsJsSpace(s[0]);
    assert TrimStart(s) == s;
  }

  /** A plain run of decimal digits without a `0x` prefix parses as its
      decimal value. */
  lemma ParseDigits(s: string)
    requires |s| >= 1 && forall i :: 0 <= i < |s| ==> IsDigit(s[i])
    requires s[0] == '0' ==> |s| == 1
    ensures ParseInt(s) == Some(DigitsValue(s, 10))
  {
    ScanDigits(s);
    DigitRunOfDigits(s);
    assert s[..|s|] == s;
  }

  lemma ParseDecimal(n: nat)
    ensures ParseInt(NatToDecimal(n)) == Some(n)
  {
    var s := NatToDecimal(n);
    if s[0] == '0' {
      assert n == 0;
      assert s == [DigitChar(0)];
    }
    ParseDigits(s);
    DecimalValue(n);
  }

  lemma QueryOfResultUrl(n: nat)
    requires n != 0
    ensures QueryOf(ScanResultUrl(Some(n))) == "id=" + NatToDecimal(n)
  {
    var q := "id=" + NatToDecimal(n);
    var url := ScanResultUrl(Some(n));
    assert url == ScanResultPage + ['?'] + q;
    assert '#' !in q;
    assert '#' !in url;
    SplitAtFirst(ScanResultPage, '?', q);
  }

  lemma ParamOfIdPair(d: string)
    requires forall i :: 0 <= i < |d| ==> IsDigit(d[i])
    ensures ParamValue("id=" + d, "id") == Some(d)
  {
    var q := "id=" + d;
    assert q == "id" + ['='] + d;
    forall i | 0 <= i < |q| ensures q[i] != '&' {
      if i >= 3 {
        assert q[i] == d[i - 3];
      }
    }
    assert Before(q, '&') == q;
    SplitAtFirst("id", '=', d);
    assert Before(q, '=') == "id" && After(q, '=') == Some(d);
  }

  /** The id written by `redirectToScanResult` is the id the result page
      parses, for every truthy id. */
  lemma ScanIdRoundTrip(n: nat)
    requires n != 0
    ensures ScanIdOf(ScanResultUrl(Some(n))) == Some(n)
  {
    QueryOfResultUrl(n);
    ParamOfIdPair(NatToDecimal(n));
    ParseDecimal(n);
  }

  /** Without a truthy id the result page finds no id and parses `NaN`. */
  lemma NoScanIdWithoutId(dataId: Option<nat>)
    requires dataId.None? || dataId.value == 0
    ensures ScanIdOf(ScanResultUrl(dataId)).None?
  {
    assert '?' !in ScanResultPage;
  }
}
