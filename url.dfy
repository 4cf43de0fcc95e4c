/** URL building as the authorization view does it: parameters appended to a
    callback with "?" or "&", and PHP's `urlencode` with its inverse `urldecode`. */
module Url {
  import opened Php

  /** The text put between a callback URL and the parameters appended to it:
      "&" when the URL already has a "?", "?" otherwise. */
  function Separator(url: string): (sep: string)
    ensures sep == "?" || sep == "&"
    ensures sep == "&" <==> '?' in url
  {
    if '?' in url then "&" else "?"
  }

  /** `$url . $concat_char . $params`. */
  function AppendParams(url: string, params: string): string
  {
    url + Separator(url) + params
  }

  /** The query of a URL: everything after its first "?", or "" when it has none. */
  function QueryOf(url: string): string
  {
    if '?' in url then url[IndexOf(url, '?') + 1..] else ""
  }

  /** Appending keeps the URL as a prefix and leaves a query that is the URL's
      own query (if any) followed by the appended parameters. */
  lemma AppendParamsQuery(url: string, params: string)
    ensures |AppendParams(url, params)| == |url| + 1 + |params|
    ensures AppendParams(url, params)[..|url|] == url
    ensures AppendParams(url, params)[|url| + 1..] == params
    ensures QueryOf(AppendParams(url, params)) ==
              if '?' in url then QueryOf(url) + "&" + params else params
  {
    if '?' in url {
      QueryAfterQuery(url, params);
    } else {
      QueryWithoutQuery(url, params);
    }
  }

  lemma QueryAfterQuery(url: string, params: string)
    requires '?' in url
    ensures QueryOf(url + "&" + params) == QueryOf(url) + "&" + params
  {
    var tail := "&" + params;
    var full := url + tail;
    assert url + "&" + params == full;
    var i := IndexOf(url, '?');
    assert full[i] == '?';
    IndexOfAppend(url, tail, '?');
    assert IndexOf(full, '?') == i;
    SliceOfAppend(url, tail, i + 1);
    assert QueryOf(full) == full[i + 1..];
  }

  lemma SliceOfAppend(a: string, b: string, k: nat)
    requires k <= |a|
    ensures (a + b)[k..] == a[k..] + b
  {
  }

  lemma QueryWithoutQuery(url: string, params: string)
    requires '?' !in url
    ensures QueryOf(url + "?" + params) == params
  {
    var tail := "?" + params;
    assert url + "?" + params == url + tail;
    assert (url + tail)[|url|] == '?';
    IndexOfAppend(url, tail, '?');
    assert IndexOf(tail, '?') == 0;
    assert (url + tail)[|url| + 1..] == params;
  }

  /** Characters `urlencode` leaves as they are. */
  predicate Unreserved(c: char) {
    'a' <= c <= 'z' || 'A' <= c <= 'Z' || '0' <= c <= '9' || c == '-' || c == '_' || c == '.'
  }

  /** Upper-case hexadecimal digit of a value below 16. */
  function HexDigit(d: nat): (c: char)
    requires d < 16
    ensures Unreserved(c)
  {
    if d < 10 then ('0' as int + d) as char else ('A' as int + d - 10) as char
  }

  predicate IsHexDigit(c: char) {
    '0' <= c <= '9' || 'a' <= c <= 'f' || 'A' <= c <= 'F'
  }

  function HexValue(c: char): (v: nat)
    requires IsHexDigit(c)
    ensures v < 16
  {
    if '0' <= c <= '9' then c as int - '0' as int
    else if 'a' <= c <= 'f' then c as int - 'a' as int + 10
    else c as int - 'A' as int + 10
  }

  /** `urlencode` of one byte. */
  function EncodeByte(c: char): string
    requires c as int < 256
  {
    if Unreserved(c) then [c]
    else if c == ' ' then "+"
    else ['%', HexDigit(c as int / 16), HexDigit(c as int % 16)]
  }

  /** PHP's `urlencode` of a byte string. What comes out holds no "&", "=",
      "?", "#" or space, so it stays one query-parameter value. */
  function UrlEncode(s: string): (r: string)
    requires IsByteString(s)
    ensures forall i :: 0 <= i < |r| ==> Unreserved(r[i]) || r[i] == '+' || r[i] == '%'
  {
    if s == [] then [] else EncodeByte(s[0]) + UrlEncode(s[1..])
  }

  /** PHP's `urldecode`: "+" is a space, "%" and two hex digits a byte,
      anything else stands for itself. */
  function UrlDecode(s: string): string
  {
    if s == [] then []
    else if s[0] == '+' then " " + UrlDecode(s[1..])
    else if s[0] == '%' && |s| >= 3 && IsHexDigit(s[1]) && IsHexDigit(s[2]) then
      [(HexValue(s[1]) * 16 + HexValue(s[2])) as char] + UrlDecode(s[3..])
    else [s[0]] + UrlDecode(s[1..])
  }

  lemma DecodeEncodedByte(c: char, rest: string)
    requires c as int < 256
    ensures UrlDecode(EncodeByte(c) + rest) == [c] + UrlDecode(rest)
  {
    var e := EncodeByte(c) + rest;
    if Unreserved(c) {
      assert e[1..] == rest;
    } else if c == ' ' {
      assert e[1..] == rest;
    } else {
      assert e[3..] == rest;
      assert HexValue(e[1]) == c as int / 16;
      assert HexValue(e[2]) == c as int % 16;
    }
  }

  /** `urldecode` undoes `urlencode`. */
  lemma {:induction false} DecodeEncode(s: string)
    requires IsByteString(s)
    ensures UrlDecode(UrlEncode(s)) == s
  {
    if s != [] {
      DecodeEncodedByte(s[0], UrlEncode(s[1..]));
      DecodeEncode(s[1..]);
    }
  }
}
