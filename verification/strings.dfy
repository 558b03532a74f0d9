/**
 * Byte-string helpers that mirror the PHP string built-ins the framework
 * relies on (strtolower, strtoupper, explode, implode, str_repeat, rtrim,
 * strrpos, str_starts_with, string truthiness). Characters are PHP bytes;
 * case mapping is the ASCII-only mapping PHP 8 performs.
 */
module Strings {
  import opened Wrappers

  function LowerChar(c: char): char {
    if 'A' <= c <= 'Z' then (c as int + 32) as char else c
  }

  function UpperChar(c: char): char {
    if 'a' <= c <= 'z' then (c as int - 32) as char else c
  }

  /** strtolower */
  function Lower(s: string): (r: string)
    ensures |r| == |s|
    ensures forall i :: 0 <= i < |s| ==> r[i] == LowerChar(s[i])
  {
    seq(|s|, i requires 0 <= i < |s| => LowerChar(s[i]))
  }

  /** strtoupper */
  function Upper(s: string): (r: string)
    ensures |r| == |s|
    ensures forall i :: 0 <= i < |s| ==> r[i] == UpperChar(s[i])
  {
    seq(|s|, i requires 0 <= i < |s| => UpperChar(s[i]))
  }

  lemma LowerIdempotent(s: string)
    ensures Lower(Lower(s)) == Lower(s)
  {
  }

  lemma UpperIdempotent(s: string)
    ensures Upper(Upper(s)) == Upper(s)
  {
  }

  /** PHP converts a string to false exactly when it is "" or "0". */
  predicate Truthy(s: string) {
    s != "" && s != "0"
  }

  /** str_starts_with */
  predicate StartsWith(s: string, prefix: string) {
    |prefix| <= |s| && s[..|prefix|] == prefix
  }

  /** str_contains with a one-character needle */
  predicate ContainsChar(s: string, c: char) {
    c in s
  }

  /** str_repeat */
  function Repeat(s: string, n: nat): (r: string)
    ensures |r| == n * |s|
  {
    if n == 0 then "" else s + Repeat(s, n - 1)
  }

  /** implode */
  function Join(parts: seq<string>, sep: string): string {
    if |parts| == 0 then ""
    else if |parts| == 1 then parts[0]
    else parts[0] + sep + Join(parts[1..], sep)
  }

  /** Index of the first occurrence of `c` in `s` at or after `from`. */
  function IndexOfFrom(s: string, c: char, from: nat): (r: Option<nat>)
    decreases |s| - from
    ensures r.Some? ==> from <= r.value < |s| && s[r.value] == c
    ensures r.Some? ==> forall k :: from <= k < r.value ==> s[k] != c
    ensures r.None? ==> forall k :: from <= k < |s| ==> s[k] != c
  {
    if from >= |s| then None
    else if s[from] == c then Some(from)
    else IndexOfFrom(s, c, from + 1)
  }

  /** explode with a one-character delimiter */
  function Split(s: string, c: char): (r: seq<string>)
    decreases |s|
    ensures |r| >= 1
    ensures forall i :: 0 <= i < |r| ==> c !in r[i]
  {
    match IndexOfFrom(s, c, 0)
    case None =>
      assert forall k :: 0 <= k < |s| ==> s[k] != c;
      [s]
    case Some(k) =>
      assert forall j :: 0 <= j < |s[..k]| ==> s[..k][j] != c;
      [s[..k]] + Split(s[k + 1..], c)
  }

  lemma {:induction false} JoinSplit(s: string, c: char)
    decreases |s|
    ensures Join(Split(s, c), [c]) == s
  {
    match IndexOfFrom(s, c, 0)
    case None =>
    case Some(k) =>
      var parts := Split(s, c);
      assert parts[0] == s[..k] && parts[1..] == Split(s[k + 1..], c);
      JoinSplit(s[k + 1..], c);
      assert Join(parts, [c]) == s[..k] + [c] + s[k + 1..];
      assert s == s[..k] + [c] + s[k + 1..];
  }

  /** strrpos with a one-character needle */
  function LastIndexOf(s: string, c: char): (r: Option<nat>)
    ensures r.Some? ==> r.value < |s| && s[r.value] == c && c !in s[r.value + 1..]
    ensures r.None? ==> c !in s
  {
    if |s| == 0 then None
    else if s[|s| - 1] == c then Some(|s| - 1)
    else LastIndexOf(s[..|s| - 1], c)
  }

  /** strtr / str_replace of one character by another */
  function ReplaceChar(s: string, from: char, to: char): (r: string)
    ensures |r| == |s|
    ensures forall i :: 0 <= i < |s| ==> r[i] == (if s[i] == from then to else s[i])
  {
    seq(|s|, i requires 0 <= i < |s| => if s[i] == from then to else s[i])
  }

  /** rtrim with an explicit character list */
  function RTrim(s: string, chars: set<char>): (r: string)
    ensures r <= s
    ensures |r| == 0 || r[|r| - 1] !in chars
    ensures forall i :: |r| <= i < |s| ==> s[i] in chars
  {
    if |s| == 0 || s[|s| - 1] !in chars then s else RTrim(s[..|s| - 1], chars)
  }

  /** ltrim with an explicit character list */
  function LTrim(s: string, chars: set<char>): (r: string)
    ensures |r| <= |s|
  {
    if |s| == 0 || s[0] !in chars then s else LTrim(s[1..], chars)
  }

  /** The characters PHP's trim removes by default. */
  const Whitespace: set<char> := {' ', '\t', '\n', '\r', 0 as char, 11 as char}

  /** trim with the default character list */
  function Trim(s: string): string {
    RTrim(LTrim(s, Whitespace), Whitespace)
  }

  /** A string that neither starts nor ends with whitespace is its own trim. */
  lemma TrimNothing(s: string)
    requires |s| > 0 && s[0] !in Whitespace && s[|s| - 1] !in Whitespace
    ensures Trim(s) == s
  {
    assert LTrim(s, Whitespace) == s;
  }

  function DigitChar(d: nat): char
    requires d < 10
  {
    ('0' as int + d) as char
  }

  /** Decimal rendering of a natural number, as PHP's string conversion of an int. */
  function NatToString(n: nat): (r: string)
    ensures |r| >= 1
    ensures forall i :: 0 <= i < |r| ==> '0' <= r[i] <= '9'
  {
    if n < 10 then [DigitChar(n)] else NatToString(n / 10) + [DigitChar(n % 10)]
  }

  function IntToString(i: int): string {
    if i < 0 then "-" + NatToString(-i) else NatToString(i)
  }

  /** The whitespace PHP 8 allows before and after a numeric string: space, \t, \n, \r, \v and \f. */
  const NumericSpace: set<char> := {' ', '\t', '\n', '\r', 11 as char, 12 as char}

  predicate DecimalDigits(s: string) {
    |s| > 0 && forall i :: 0 <= i < |s| ==> '0' <= s[i] <= '9'
  }

  function DigitsValue(ds: string): nat
    requires forall i :: 0 <= i < |ds| ==> '0' <= ds[i] <= '9'
  {
    if |ds| == 0 then 0 else DigitsValue(ds[..|ds| - 1]) * 10 + (ds[|ds| - 1] as int - '0' as int)
  }

  /** An optional sign followed by decimal digits, and its value. */
  function SignedDecimal(t: string): Option<int> {
    if |t| > 0 && (t[0] == '+' || t[0] == '-') && DecimalDigits(t[1..]) then
      var v: int := DigitsValue(t[1..]);
      Some(if t[0] == '-' then -v else v)
    else if DecimalDigits(t) then Some(DigitsValue(t))
    else None
  }

  /** PHP_INT_MAX and PHP_INT_MIN on a 64-bit build. */
  const PhpIntMax: int := 9223372036854775807
  const PhpIntMin: int := -9223372036854775808

  /**
   * The integer an integer-like numeric string denotes: optional
   * surrounding whitespace, an optional sign and decimal digits, with a
   * value that fits a PHP int. A string of digits beyond that range is
   * read as a float, which is not modelled here.
   */
  function IntegerNumeric(s: string): (r: Option<int>)
    ensures r.Some? ==> PhpIntMin <= r.value <= PhpIntMax
  {
    match SignedDecimal(RTrim(LTrim(s, NumericSpace), NumericSpace))
    case Some(v) => if PhpIntMin <= v <= PhpIntMax then Some(v) else None
    case None => None
  }

  /**
   * PHP 8's `==` between two strings: when both are integer-like and fit a
   * PHP int they are compared as numbers, otherwise byte for byte. Two
   * strings beyond the int range compare as floats in PHP, and when the
   * floats are equal PHP falls back to the bytes; one such string against
   * an int-sized one is never equal. Either way the outcome is the byte
   * comparison.
   */
  predicate LooseEquals(a: string, b: string) {
    var x, y := IntegerNumeric(a), IntegerNumeric(b);
    if x.Some? && y.Some? then x.value == y.value else a == b
  }

  /**
   * in_array without its strict flag: some element of the haystack equals
   * the needle under the loose `==`. For a needle that is not integer-like
   * that is plain membership.
   */
  predicate InArray(needle: string, haystack: seq<string>)
    ensures needle in haystack ==> InArray(needle, haystack)
    ensures InArray(needle, haystack) && IntegerNumeric(needle).None? ==> needle in haystack
  {
    exists i :: 0 <= i < |haystack| && LooseEquals(haystack[i], needle)
  }

  lemma {:induction false} DigitsValueNatToString(n: nat)
    ensures DigitsValue(NatToString(n)) == n
  {
    if n >= 10 {
      var ds := NatToString(n);
      assert ds[..|ds| - 1] == NatToString(n / 10);
      DigitsValueNatToString(n / 10);
    }
  }

  /** Trimming a string whose first and last characters are not in `chars` changes nothing. */
  lemma TrimUnchanged(s: string, chars: set<char>)
    requires |s| > 0 && s[0] !in chars && s[|s| - 1] !in chars
    ensures RTrim(LTrim(s, chars), chars) == s
  {
  }

  lemma SignedDecimalOfDigits(ds: string)
    requires DecimalDigits(ds)
    ensures SignedDecimal(ds) == Some(DigitsValue(ds) as int)
    ensures SignedDecimal("-" + ds) == Some(-(DigitsValue(ds) as int))
  {
    assert ("-" + ds)[1..] == ds;
  }

  lemma SignedDecimalIntToString(i: int)
    ensures SignedDecimal(IntToString(i)) == Some(i)
  {
    var n: nat := if i < 0 then -i else i;
    DigitsValueNatToString(n);
    SignedDecimalOfDigits(NatToString(n));
  }

  lemma DigitNotSpace(c: char)
    requires '0' <= c <= '9'
    ensures c !in NumericSpace
  {
  }

  /** The decimal string of an integer reads back as that integer, when it fits a PHP int. */
  lemma IntegerNumericIntToString(i: int)
    ensures IntegerNumeric(IntToString(i)) == if PhpIntMin <= i <= PhpIntMax then Some(i) else None
  {
    var s := IntToString(i);
    var ds := NatToString(if i < 0 then -i else i);
    DigitNotSpace(ds[0]);
    DigitNotSpace(ds[|ds| - 1]);
    assert s[0] == '-' || s[0] == ds[0];
    assert s[|s| - 1] == ds[|ds| - 1];
    TrimUnchanged(s, NumericSpace);
    SignedDecimalIntToString(i);
  }

  /** Loosely, the decimal strings of two integers are equal exactly when the integers are. */
  lemma LooseEqualsIntToString(i: int, j: int)
    ensures LooseEquals(IntToString(i), IntToString(j)) <==> i == j
  {
    IntegerNumericIntToString(i);
    IntegerNumericIntToString(j);
    SignedDecimalIntToString(i);
    SignedDecimalIntToString(j);
  }

  /** A string of digits is read as its value, when that fits a PHP int. */
  lemma IntegerNumericDigits(ds: string)
    requires DecimalDigits(ds)
    ensures IntegerNumeric(ds) == if DigitsValue(ds) <= PhpIntMax then Some(DigitsValue(ds) as int) else None
  {
    DigitNotSpace(ds[0]);
    DigitNotSpace(ds[|ds| - 1]);
    TrimUnchanged(ds, NumericSpace);
    SignedDecimalOfDigits(ds);
  }

  /** A leading zero does not change the value of a digit string. */
  lemma {:induction false} LeadingZero(ds: string)
    requires DecimalDigits(ds)
    ensures DecimalDigits("0" + ds) && DigitsValue("0" + ds) == DigitsValue(ds)
  {
    var zs := "0" + ds;
    assert zs[..|zs| - 1] == "0" + ds[..|ds| - 1];
    if |ds| > 1 {
      LeadingZero(ds[..|ds| - 1]);
    }
  }

  /**
   * A leading zero keeps two spellings of a number loosely equal only up to
   * PHP_INT_MAX; past it the strings are compared byte for byte and differ.
   */
  lemma LeadingZeroLooseEquals(n: nat)
    ensures LooseEquals("0" + NatToString(n), NatToString(n)) <==> n <= PhpIntMax
  {
    var ds := NatToString(n);
    DigitsValueNatToString(n);
    LeadingZero(ds);
    IntegerNumericDigits(ds);
    IntegerNumericDigits("0" + ds);
    assert |"0" + ds| != |ds|;
  }

  /** Leading zeros and surrounding whitespace do not matter; other text does. */
  lemma LooseEqualsExamples()
    ensures LooseEquals("01", "1") && LooseEquals(" 1", "1")
    ensures !LooseEquals("1a", "1") && !LooseEquals("", "0")
  {
    IntegerNumericDigits("1");
    assert DecimalDigits("01") && DigitsValue("01") == 1 by {
      assert "01"[..1] == "0";
    }
    IntegerNumericDigits("01");
    assert IntegerNumeric(" 1") == Some(1) by {
      assert LTrim(" 1", NumericSpace) == LTrim("1", NumericSpace);
      TrimUnchanged("1", NumericSpace);
      SignedDecimalOfDigits("1");
    }
    assert IntegerNumeric("1a") == None by {
      TrimUnchanged("1a", NumericSpace);
      assert "1a"[1] == 'a';
    }
  }

  function Reverse<T>(s: seq<T>): (r: seq<T>)
    ensures |r| == |s|
    ensures forall i :: 0 <= i < |s| ==> r[i] == s[|s| - 1 - i]
  {
    if |s| == 0 then [] else Reverse(s[1..]) + [s[0]]
  }

  lemma ReverseReverse<T>(s: seq<T>)
    ensures Reverse(Reverse(s)) == s
  {
  }

  /** array_unique over a sequence: keeps the first occurrence of every element. */
  function Unique(s: string): (r: string)
    ensures forall x :: x in r <==> x in s
    ensures forall i, j :: 0 <= i < j < |r| ==> r[i] != r[j]
  {
    if |s| == 0 then []
    else
      var rest := Unique(s[..|s| - 1]);
      if s[|s| - 1] in rest then rest else rest + [s[|s| - 1]]
  }
}
