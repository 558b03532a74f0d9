/**
 * Percent-encoding as the routing engine uses it: rawurlencode for
 * generated path segments (section 2.1 of RFC 3986), strtr with
 * `'%2F' => '/'` to keep slashes, and urldecode / rawurldecode on the
 * matching side. PHP strings are byte strings; a character stands for one
 * byte, and a character above 255 is encoded by its low byte.
 */
module UrlEncoding {
  import opened Wrappers
  import opened Strings

  /** Characters rawurlencode leaves alone (unreserved, section 2.3 of RFC 3986). */
  predicate Unreserved(c: char) {
    'a' <= c <= 'z' || 'A' <= c <= 'Z' || '0' <= c <= '9' || c == '-' || c == '_' || c == '.' || c == '~'
  }

  predicate IsByteString(s: string) {
    forall i :: 0 <= i < |s| ==> s[i] as int < 256
  }

  function HexDigit(n: nat): (c: char)
    requires n < 16
    ensures HexValue(c) == Some(n)
  {
    if n < 10 then ('0' as int + n) as char else ('A' as int + n - 10) as char
  }

  /** The value of a hexadecimal digit of either case. */
  function HexValue(c: char): (r: Option<nat>)
    ensures r.Some? ==> r.value < 16
  {
    if '0' <= c <= '9' then Some(c as int - '0' as int)
    else if 'a' <= c <= 'f' then Some(c as int - 'a' as int + 10)
    else if 'A' <= c <= 'F' then Some(c as int - 'A' as int + 10)
    else None
  }

  /** Every `%` in `r` starts a `%HH` escape. */
  predicate WellEscaped(r: string) {
    forall i :: 0 <= i < |r| && r[i] == '%' ==> i + 2 < |r| && HexValue(r[i + 1]).Some? && HexValue(r[i + 2]).Some?
  }

  lemma WellEscapedConcat(a: string, b: string)
    requires WellEscaped(a) && WellEscaped(b)
    ensures WellEscaped(a + b)
  {
    var r := a + b;
    forall i | 0 <= i < |r| && r[i] == '%'
      ensures i + 2 < |r| && HexValue(r[i + 1]).Some? && HexValue(r[i + 2]).Some?
    {
      if i < |a| {
        assert a[i] == '%';
      } else {
        assert b[i - |a|] == '%';
      }
    }
  }

  /** `%HH` with upper-case hex digits for the byte of `c`. */
  function EscapeChar(c: char): (r: string)
    ensures |r| == 3 && r[0] == '%'
    ensures WellEscaped(r)
  {
    var b := c as int % 256;
    ['%', HexDigit(b / 16), HexDigit(b % 16)]
  }

  function EncodeChar(c: char): (r: string)
    ensures WellEscaped(r)
  {
    if Unreserved(c) then [c] else EscapeChar(c)
  }

  /** rawurlencode: unreserved characters and `%HH` escapes only. */
  function RawUrlEncode(s: string): (r: string)
    ensures forall i :: 0 <= i < |r| ==> Unreserved(r[i]) || r[i] == '%' || HexValue(r[i]).Some?
    ensures WellEscaped(r)
  {
    if |s| == 0 then ""
    else
      WellEscapedConcat(EncodeChar(s[0]), RawUrlEncode(s[1..]));
      EncodeChar(s[0]) + RawUrlEncode(s[1..])
  }

  /** A `%` followed by two hexadecimal digits at the start of `s`. */
  predicate EscapeAt(s: string) {
    |s| >= 3 && s[0] == '%' && HexValue(s[1]).Some? && HexValue(s[2]).Some?
  }

  function EscapedChar(s: string): char
    requires EscapeAt(s)
  {
    (16 * HexValue(s[1]).value + HexValue(s[2]).value) as char
  }

  /** rawurldecode: each `%HH` becomes its byte; any other character, a lone `%` included, stays. */
  function RawUrlDecode(s: string): string {
    if |s| == 0 then ""
    else if EscapeAt(s) then [EscapedChar(s)] + RawUrlDecode(s[3..])
    else [s[0]] + RawUrlDecode(s[1..])
  }

  /** urldecode: as rawurldecode, and `+` also stands for a space. */
  function UrlDecode(s: string): string {
    if |s| == 0 then ""
    else if EscapeAt(s) then [EscapedChar(s)] + UrlDecode(s[3..])
    else [if s[0] == '+' then ' ' else s[0]] + UrlDecode(s[1..])
  }

  /** strtr($s, ['%2F' => '/']) */
  function KeepSlashes(s: string): string {
    if |s| == 0 then ""
    else if |s| >= 3 && s[..3] == "%2F" then "/" + KeepSlashes(s[3..])
    else [s[0]] + KeepSlashes(s[1..])
  }

  /** rawurlencode that leaves `/` as it is. */
  function EncodePath(s: string): (r: string)
    ensures forall i :: 0 <= i < |r| ==> Unreserved(r[i]) || r[i] == '%' || r[i] == '/' || HexValue(r[i]).Some?
    ensures WellEscaped(r)
  {
    if |s| == 0 then ""
    else
      var head := if s[0] == '/' then "/" else EncodeChar(s[0]);
      WellEscapedConcat(head, EncodePath(s[1..]));
      head + EncodePath(s[1..])
  }

  lemma DecodeEscape(c: char, rest: string)
    requires c as int < 256
    ensures EscapeAt(EscapeChar(c) + rest)
    ensures EscapedChar(EscapeChar(c) + rest) == c
    ensures (EscapeChar(c) + rest)[3..] == rest
  {
  }

  /** rawurldecode undoes rawurlencode on byte strings. */
  lemma {:induction false} RawUrlDecodeEncode(s: string)
    requires IsByteString(s)
    ensures RawUrlDecode(RawUrlEncode(s)) == s
  {
    if |s| > 0 {
      var rest := RawUrlEncode(s[1..]);
      RawUrlDecodeEncode(s[1..]);
      if Unreserved(s[0]) {
        assert ([s[0]] + rest)[1..] == rest;
      } else {
        DecodeEscape(s[0], rest);
      }
    }
  }

  /** urldecode also undoes rawurlencode: `+` and space are always escaped. */
  lemma {:induction false} UrlDecodeEncode(s: string)
    requires IsByteString(s)
    ensures UrlDecode(RawUrlEncode(s)) == s
  {
    if |s| > 0 {
      var rest := RawUrlEncode(s[1..]);
      UrlDecodeEncode(s[1..]);
      if Unreserved(s[0]) {
        assert ([s[0]] + rest)[1..] == rest;
      } else {
        DecodeEscape(s[0], rest);
      }
    }
  }

  /** Replacing `%2F` after rawurlencode is the same as never escaping `/`. */
  lemma {:induction false} KeepSlashesEncode(s: string)
    requires IsByteString(s)
    ensures KeepSlashes(RawUrlEncode(s)) == EncodePath(s)
  {
    if |s| > 0 {
      var c := s[0];
      var rest := RawUrlEncode(s[1..]);
      KeepSlashesEncode(s[1..]);
      if Unreserved(c) {
        KeepSlashesPlain(c, rest);
      } else if c == '/' {
        KeepSlashesSlash(rest);
      } else {
        KeepSlashesEscaped(c, rest);
      }
    }
  }

  lemma KeepSlashesSlash(rest: string)
    ensures KeepSlashes(EncodeChar('/') + rest) == "/" + KeepSlashes(rest)
  {
    var e := EncodeChar('/') + rest;
    assert e[..3] == "%2F" && e[3..] == rest;
  }

  lemma KeepSlashesEscaped(c: char, rest: string)
    requires c as int < 256 && c != '/' && !Unreserved(c)
    ensures KeepSlashes(EncodeChar(c) + rest) == EncodeChar(c) + KeepSlashes(rest)
  {
    EscapeNotSlash(c);
    var x := EscapeChar(c);
    var e := x + rest;
    assert e[..3] == x && e[1..] == [x[1]] + ([x[2]] + rest);
    KeepSlashesPlain(x[1], [x[2]] + rest);
    KeepSlashesPlain(x[2], rest);
    assert x == [x[0]] + ([x[1]] + [x[2]]);
  }

  lemma KeepSlashesPlain(c: char, rest: string)
    requires c != '%'
    ensures KeepSlashes([c] + rest) == [c] + KeepSlashes(rest)
  {
    var e := [c] + rest;
    assert e[1..] == rest;
    if |e| >= 3 {
      assert e[..3][0] == c;
    }
  }

  /** Only `/` itself is escaped as `%2F`. */
  lemma EscapeNotSlash(c: char)
    requires c as int < 256 && c != '/'
    ensures EscapeChar(c) != "%2F"
    ensures HexValue(EscapeChar(c)[1]).Some? && HexValue(EscapeChar(c)[2]).Some?
  {
    var b := c as int % 256;
    var x := EscapeChar(c);
    assert HexValue(x[1]) == Some(b / 16) && HexValue(x[2]) == Some(b % 16);
    assert HexValue('2') == Some(2) && HexValue('F') == Some(15);
  }

  /** Characters urlencode leaves alone: letters, digits and `-_.`. */
  predicate FormSafe(c: char) {
    'a' <= c <= 'z' || 'A' <= c <= 'Z' || '0' <= c <= '9' || c == '-' || c == '_' || c == '.'
  }

  /** urlencode (application/x-www-form-urlencoded): a space becomes `+`. */
  function FormEncode(s: string): (r: string)
    ensures forall i :: 0 <= i < |r| ==> FormSafe(r[i]) || r[i] == '+' || r[i] == '%' || HexValue(r[i]).Some?
    ensures WellEscaped(r)
  {
    if |s| == 0 then ""
    else
      var head := if FormSafe(s[0]) then [s[0]] else if s[0] == ' ' then "+" else EscapeChar(s[0]);
      WellEscapedConcat(head, FormEncode(s[1..]));
      head + FormEncode(s[1..])
  }

  /** urldecode undoes urlencode on byte strings. */
  lemma {:induction false} UrlDecodeFormEncode(s: string)
    requires IsByteString(s)
    ensures UrlDecode(FormEncode(s)) == s
  {
    if |s| > 0 {
      var rest := FormEncode(s[1..]);
      UrlDecodeFormEncode(s[1..]);
      if FormSafe(s[0]) || s[0] == ' ' {
        var e := FormEncode(s);
        assert e == [if s[0] == ' ' then '+' else s[0]] + rest;
        assert e[1..] == rest;
      } else {
        DecodeEscape(s[0], rest);
      }
    }
  }

  /** rawurldecode undoes the generator's encoding of a byte string. */
  lemma {:induction false} RawUrlDecodeEncodePath(s: string)
    requires IsByteString(s)
    ensures RawUrlDecode(EncodePath(s)) == s
  {
    if |s| > 0 {
      var rest := EncodePath(s[1..]);
      RawUrlDecodeEncodePath(s[1..]);
      if s[0] == '/' || Unreserved(s[0]) {
        assert ([s[0]] + rest)[1..] == rest;
      } else {
        DecodeEscape(s[0], rest);
      }
    }
  }
}
