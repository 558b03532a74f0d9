/**
 * Base 64 as PHP's base64_encode and base64_decode compute it, with the
 * alphabet and padding of section 4 of RFC 4648. Decoding is the
 * non-strict one: every character outside the alphabet, padding
 * included, is skipped, and the bits of an incomplete last byte are
 * dropped. Strings hold bytes, one per character.
 */
module Base64 {
  import opened Wrappers

  predicate Bytes(s: string) {
    forall i :: 0 <= i < |s| ==> s[i] as int < 256
  }

  /** The character of a 6-bit value. */
  function EncodeChar(v: nat): (c: char)
    requires v < 64
    ensures c as int < 128
  {
    if v < 26 then ('A' as int + v) as char
    else if v < 52 then ('a' as int + v - 26) as char
    else if v < 62 then ('0' as int + v - 52) as char
    else if v == 62 then '+'
    else '/'
  }

  /** The 6-bit value of an alphabet character. */
  function DecodeChar(c: char): (r: Option<nat>)
    ensures r.Some? ==> r.value < 64
  {
    if 'A' <= c <= 'Z' then Some(c as int - 'A' as int)
    else if 'a' <= c <= 'z' then Some(c as int - 'a' as int + 26)
    else if '0' <= c <= '9' then Some(c as int - '0' as int + 52)
    else if c == '+' then Some(62)
    else if c == '/' then Some(63)
    else None
  }

  lemma DecodeEncodeChar(v: nat)
    requires v < 64
    ensures DecodeChar(EncodeChar(v)) == Some(v)
  {
  }

  /** The 6-bit values of the four characters encoding the bytes a, b, c. */
  function Sextets3(a: nat, b: nat, c: nat): (r: seq<nat>)
    requires a < 256 && b < 256 && c < 256
    ensures |r| == 4 && forall i :: 0 <= i < 4 ==> r[i] < 64
  {
    [a / 4, (a % 4) * 16 + b / 16, (b % 16) * 4 + c / 64, c % 64]
  }

  /** The values of the two characters before `==`, for a last single byte. */
  function Sextets1(a: nat): (r: seq<nat>)
    requires a < 256
    ensures |r| == 2 && forall i :: 0 <= i < 2 ==> r[i] < 64
  {
    [a / 4, (a % 4) * 16]
  }

  /** The values of the three characters before `=`, for two last bytes. */
  function Sextets2(a: nat, b: nat): (r: seq<nat>)
    requires a < 256 && b < 256
    ensures |r| == 3 && forall i :: 0 <= i < 3 ==> r[i] < 64
  {
    [a / 4, (a % 4) * 16 + b / 16, (b % 16) * 4]
  }

  lemma EncodedLength(n: nat)
    requires n >= 3
    ensures (n - 3 + 2) / 3 * 4 + 4 == (n + 2) / 3 * 4
  {
  }

  function EncodeAll(vs: seq<nat>): (r: string)
    requires forall i :: 0 <= i < |vs| ==> vs[i] < 64
    ensures |r| == |vs| && Bytes(r)
    ensures forall i :: 0 <= i < |vs| ==> r[i] == EncodeChar(vs[i])
  {
    seq(|vs|, i requires 0 <= i < |vs| => EncodeChar(vs[i]))
  }

  /** base64_encode: three bytes to four characters, the last group padded with `=`. */
  function Encode(s: string): (r: string)
    requires Bytes(s)
    decreases |s|
    ensures |r| == (|s| + 2) / 3 * 4 && Bytes(r)
  {
    if |s| == 0 then ""
    else if |s| == 1 then EncodeAll(Sextets1(s[0] as int)) + "=="
    else if |s| == 2 then EncodeAll(Sextets2(s[0] as int, s[1] as int)) + "="
    else
      EncodedLength(|s|);
      EncodeAll(Sextets3(s[0] as int, s[1] as int, s[2] as int)) + Encode(s[3..])
  }

  /** The 6-bit values of the alphabet characters of `s`, all others skipped. */
  function Sextets(s: string): (r: seq<nat>)
    ensures forall i :: 0 <= i < |r| ==> r[i] < 64
  {
    if |s| == 0 then []
    else
      var d := DecodeChar(s[0]);
      (if d.Some? then [d.value] else []) + Sextets(s[1..])
  }

  /** The first byte of a group: six bits of v0, two of v1. */
  function Byte0(v0: nat, v1: nat): char
    requires v0 < 64 && v1 < 64
  {
    (v0 * 4 + v1 / 16) as char
  }

  /** The second byte of a group: four bits of v1, four of v2. */
  function Byte1(v1: nat, v2: nat): char
    requires v1 < 64 && v2 < 64
  {
    ((v1 % 16) * 16 + v2 / 4) as char
  }

  /** The third byte of a group: two bits of v2, six of v3. */
  function Byte2(v2: nat, v3: nat): char
    requires v2 < 64 && v3 < 64
  {
    ((v2 % 4) * 64 + v3) as char
  }

  /** Four values make three bytes; a last group of three values makes two, of two one, of one none. */
  function DecodeSextets(vs: seq<nat>): (r: string)
    requires forall i :: 0 <= i < |vs| ==> vs[i] < 64
    ensures Bytes(r)
  {
    if |vs| >= 4 then
      [Byte0(vs[0], vs[1]), Byte1(vs[1], vs[2]), Byte2(vs[2], vs[3])]
        + DecodeSextets(vs[4..])
    else if |vs| == 3 then [Byte0(vs[0], vs[1]), Byte1(vs[1], vs[2])]
    else if |vs| == 2 then [Byte0(vs[0], vs[1])]
    else []
  }

  /** base64_decode without strict mode. */
  function Decode(s: string): (r: string)
    ensures Bytes(r)
  {
    DecodeSextets(Sextets(s))
  }

  lemma {:induction false} SextetsConcat(a: string, b: string)
    decreases |a|
    ensures Sextets(a + b) == Sextets(a) + Sextets(b)
  {
    if |a| > 0 {
      SextetsConcat(a[1..], b);
      assert (a + b)[1..] == a[1..] + b;
    } else {
      assert a + b == b;
    }
  }

  lemma {:induction false} SextetsOfEncoded(vs: seq<nat>)
    requires forall i :: 0 <= i < |vs| ==> vs[i] < 64
    decreases |vs|
    ensures Sextets(EncodeAll(vs)) == vs
  {
    if |vs| > 0 {
      var e := EncodeAll(vs);
      DecodeEncodeChar(vs[0]);
      assert e[1..] == EncodeAll(vs[1..]);
      SextetsOfEncoded(vs[1..]);
      assert vs == [vs[0]] + vs[1..];
    }
  }

  lemma SextetsOfPadding()
    ensures Sextets("=") == [] && Sextets("==") == []
  {
    assert "=="[1..] == "=";
  }

  /** Three bytes survive the trip through four 6-bit values. */
  lemma Group3(a: nat, b: nat, c: nat)
    requires a < 256 && b < 256 && c < 256
    ensures var vs := Sextets3(a, b, c);
      && Byte0(vs[0], vs[1]) == a as char
      && Byte1(vs[1], vs[2]) == b as char
      && Byte2(vs[2], vs[3]) == c as char
  {
  }

  lemma EncodeOneValues(s: string)
    requires Bytes(s) && |s| == 1
    ensures Sextets(Encode(s)) == EncodedSextets(s)
  {
    var vs := Sextets1(s[0] as int);
    SextetsConcat(EncodeAll(vs), "==");
    SextetsOfEncoded(vs);
    SextetsOfPadding();
  }

  lemma EncodeTwoValues(s: string)
    requires Bytes(s) && |s| == 2
    ensures Sextets(Encode(s)) == EncodedSextets(s)
  {
    var vs := Sextets2(s[0] as int, s[1] as int);
    SextetsConcat(EncodeAll(vs), "=");
    SextetsOfEncoded(vs);
    SextetsOfPadding();
  }

  lemma {:induction false} DecodeEncodeValues(s: string)
    requires Bytes(s)
    decreases |s|
    ensures Sextets(Encode(s)) == EncodedSextets(s)
  {
    if |s| == 1 {
      EncodeOneValues(s);
    } else if |s| == 2 {
      EncodeTwoValues(s);
    } else if |s| >= 3 {
      var g := Sextets3(s[0] as int, s[1] as int, s[2] as int);
      SextetsConcat(EncodeAll(g), Encode(s[3..]));
      SextetsOfEncoded(g);
      DecodeEncodeValues(s[3..]);
    }
  }

  /** The 6-bit values the encoder emits, padding aside. */
  function EncodedSextets(s: string): (r: seq<nat>)
    requires Bytes(s)
    decreases |s|
    ensures forall i :: 0 <= i < |r| ==> r[i] < 64
  {
    if |s| == 0 then []
    else if |s| == 1 then Sextets1(s[0] as int)
    else if |s| == 2 then Sextets2(s[0] as int, s[1] as int)
    else Sextets3(s[0] as int, s[1] as int, s[2] as int) + EncodedSextets(s[3..])
  }

  lemma DecodeLastOne(a: nat)
    requires a < 256
    ensures DecodeSextets(Sextets1(a)) == [a as char]
  {
    assert Byte0(a / 4, (a % 4) * 16) == a as char;
  }

  lemma DecodeLastTwo(a: nat, b: nat)
    requires a < 256 && b < 256
    ensures DecodeSextets(Sextets2(a, b)) == [a as char, b as char]
  {
    Group3(a, b, 0);
  }

  lemma DecodeGroup(a: nat, b: nat, c: nat, rest: seq<nat>)
    requires a < 256 && b < 256 && c < 256
    requires forall i :: 0 <= i < |rest| ==> rest[i] < 64
    ensures DecodeSextets(Sextets3(a, b, c) + rest) == [a as char, b as char, c as char] + DecodeSextets(rest)
  {
    var g := Sextets3(a, b, c);
    var vs := g + rest;
    Group3(a, b, c);
    assert vs[0] == g[0] && vs[1] == g[1] && vs[2] == g[2] && vs[3] == g[3];
    assert vs[4..] == rest;
  }

  lemma {:induction false} DecodeEncodedSextets(s: string)
    requires Bytes(s)
    decreases |s|
    ensures DecodeSextets(EncodedSextets(s)) == s
  {
    if |s| == 1 {
      DecodeLastOne(s[0] as int);
    } else if |s| == 2 {
      DecodeLastTwo(s[0] as int, s[1] as int);
    } else if |s| >= 3 {
      DecodeGroup(s[0] as int, s[1] as int, s[2] as int, EncodedSextets(s[3..]));
      DecodeEncodedSextets(s[3..]);
      assert s == s[..3] + s[3..];
    }
  }

  /** base64_decode(base64_encode(s)) == s */
  lemma DecodeEncode(s: string)
    requires Bytes(s)
    ensures Decode(Encode(s)) == s
  {
    DecodeEncodeValues(s);
    DecodeEncodedSextets(s);
  }

  /** The encoding is made of alphabet characters and `=` only. */
  lemma EncodeAlphabet(s: string)
    requires Bytes(s)
    ensures forall i :: 0 <= i < |Encode(s)| ==> DecodeChar(Encode(s)[i]).Some? || Encode(s)[i] == '='
  {
    var e := Encode(s);
    forall i | 0 <= i < |e|
      ensures DecodeChar(e[i]).Some? || e[i] == '='
    {
      EncodeAlphabetAt(s, i);
    }
  }

  lemma {:induction false} EncodeAlphabetAt(s: string, i: nat)
    requires Bytes(s) && i < |Encode(s)|
    decreases |s|
    ensures DecodeChar(Encode(s)[i]).Some? || Encode(s)[i] == '='
  {
    if |s| == 1 {
      if i < 2 {
        DecodeEncodeChar(Sextets1(s[0] as int)[i]);
      }
    } else if |s| == 2 {
      if i < 3 {
        DecodeEncodeChar(Sextets2(s[0] as int, s[1] as int)[i]);
      }
    } else if |s| >= 3 {
      var g := Sextets3(s[0] as int, s[1] as int, s[2] as int);
      if i < 4 {
        DecodeEncodeChar(g[i]);
      } else {
        EncodeAlphabetAt(s[3..], i - 4);
      }
    }
  }
}
