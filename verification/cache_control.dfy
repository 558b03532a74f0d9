/**
 * Cache-Control directives as HeaderContainer keeps them
 * (src/Ignite/Http/HeaderContainer.php:173-212): an ordered map from
 * directive name to either `true` (a bare directive) or a string value,
 * rendered as the header value of section 5.2 of RFC 9111 and parsed back.
 *
 * The parser is the scan preg_match_all makes with the pattern
 * `([a-zA-Z][a-zA-Z_-]*)\s*(?:=(?:"([^"]*)"|([^ \t",;]*)))?`, written out:
 * at each position where a letter starts a name, one directive is read
 * (greedy name, optional spaces, an optional `=` with a quoted or a bare
 * value); any other character is skipped.
 */
module CacheControl {
  import opened Wrappers
  import opened Strings
  import opened OrderedMaps

  /** A directive's value: `true`, or a string. */
  datatype Directive = Flag | Text(s: string)

  type Directives = OrderedMap<Directive>

  // ---------------------------------------------------------------------
  // ksort: byte-wise order of the directive names
  // ---------------------------------------------------------------------

  /** `a` sorts strictly before `b`, comparing bytes as strcmp does. */
  predicate Before(a: string, b: string)
    decreases |a|
  {
    if |a| == 0 then |b| > 0
    else |b| > 0 && (a[0] < b[0] || (a[0] == b[0] && Before(a[1..], b[1..])))
  }

  lemma {:induction false} BeforeTotal(a: string, b: string)
    decreases |a|
    ensures a == b || Before(a, b) || Before(b, a)
  {
    if |a| > 0 && |b| > 0 && a[0] == b[0] {
      BeforeTotal(a[1..], b[1..]);
      if a[1..] == b[1..] {
        assert a == [a[0]] + a[1..] && b == [b[0]] + b[1..];
      }
    }
  }

  lemma {:induction false} BeforeStrict(a: string, b: string)
    decreases |a|
    ensures !(Before(a, b) && Before(b, a))
  {
    if |a| > 0 && |b| > 0 && a[0] == b[0] {
      BeforeStrict(a[1..], b[1..]);
    }
  }

  lemma {:induction false} BeforeTransitive(a: string, b: string, c: string)
    decreases |a|
    requires Before(a, b) && Before(b, c)
    ensures Before(a, c)
  {
    if |a| > 0 && a[0] == b[0] && b[0] == c[0] {
      BeforeTransitive(a[1..], b[1..], c[1..]);
    }
  }

  predicate SortedByKey<V>(m: OrderedMap<V>) {
    forall i, j :: 0 <= i < j < |m| ==> Before(m[i].0, m[j].0)
  }

  /** Inserting one pair in front of the first larger key. */
  function Insert<V>(kv: (string, V), l: OrderedMap<V>): (r: OrderedMap<V>)
    ensures multiset(r) == multiset(l) + multiset{kv}
  {
    if |l| == 0 then [kv]
    else if Before(kv.0, l[0].0) then [kv] + l
    else
      assert l == [l[0]] + l[1..];
      [l[0]] + Insert(kv, l[1..])
  }

  lemma {:induction false} InsertSorted<V>(kv: (string, V), l: OrderedMap<V>)
    requires SortedByKey(l)
    requires forall x :: x in l ==> x.0 != kv.0
    ensures SortedByKey(Insert(kv, l))
  {
    if |l| > 0 && !Before(kv.0, l[0].0) {
      InsertSorted(kv, l[1..]);
      InsertAfterHead(kv, l);
    } else if |l| > 0 {
      InsertAtHead(kv, l);
    }
  }

  /** The pair goes in front of a larger first key. */
  lemma InsertAtHead<V>(kv: (string, V), l: OrderedMap<V>)
    requires SortedByKey(l) && |l| > 0 && Before(kv.0, l[0].0)
    ensures SortedByKey([kv] + l)
  {
    var r := [kv] + l;
    forall i, j | 0 <= i < j < |r|
      ensures Before(r[i].0, r[j].0)
    {
      if i == 0 && j > 1 {
        BeforeTransitive(kv.0, l[0].0, l[j - 1].0);
      } else if i > 0 {
        assert r[i] == l[i - 1] && r[j] == l[j - 1];
      }
    }
  }

  /** The pair goes after a smaller first key, into the sorted rest. */
  lemma InsertAfterHead<V>(kv: (string, V), l: OrderedMap<V>)
    requires SortedByKey(l) && |l| > 0 && !Before(kv.0, l[0].0)
    requires forall x :: x in l ==> x.0 != kv.0
    requires SortedByKey(Insert(kv, l[1..]))
    ensures SortedByKey([l[0]] + Insert(kv, l[1..]))
  {
    HeadBeforeInserted(kv, l);
    SortedCons(l[0], Insert(kv, l[1..]));
  }

  /** A pair whose name comes before every name of a sorted list can go in front of it. */
  lemma SortedCons<V>(x: (string, V), rest: OrderedMap<V>)
    requires SortedByKey(rest)
    requires forall y :: y in rest ==> Before(x.0, y.0)
    ensures SortedByKey([x] + rest)
  {
    var r := [x] + rest;
    forall i, j | 0 <= i < j < |r|
      ensures Before(r[i].0, r[j].0)
    {
      assert r[j] == rest[j - 1] && rest[j - 1] in rest;
      if i > 0 {
        assert r[i] == rest[i - 1];
      }
    }
  }

  /** Every pair of the sorted rest with the new pair inserted comes after the head. */
  lemma HeadBeforeInserted<V>(kv: (string, V), l: OrderedMap<V>)
    requires SortedByKey(l) && |l| > 0 && !Before(kv.0, l[0].0)
    requires forall x :: x in l ==> x.0 != kv.0
    ensures forall x :: x in Insert(kv, l[1..]) ==> Before(l[0].0, x.0)
  {
    InsertMembers(kv, l[1..]);
    assert l[0] in l;
    BeforeTotal(kv.0, l[0].0);
    forall x | x in Insert(kv, l[1..])
      ensures Before(l[0].0, x.0)
    {
      if x != kv {
        var k :| 0 <= k < |l[1..]| && l[1..][k] == x;
        assert l[k + 1] == x;
      }
    }
  }

  lemma InsertMembers<V>(kv: (string, V), l: OrderedMap<V>)
    ensures forall x :: x in Insert(kv, l) ==> x == kv || x in l
  {
    forall x | x in Insert(kv, l)
      ensures x == kv || x in l
    {
      assert x in multiset(Insert(kv, l));
    }
  }

  /** ksort */
  function SortByKey<V>(m: OrderedMap<V>): (r: OrderedMap<V>)
    ensures multiset(r) == multiset(m)
  {
    if |m| == 0 then []
    else
      assert m == [m[0]] + m[1..];
      Insert(m[0], SortByKey(m[1..]))
  }

  /** ksort leaves the same pairs, in ascending order of their (distinct) names. */
  lemma {:induction false} SortByKeySorted<V>(m: OrderedMap<V>)
    requires WellFormed(m)
    ensures SortedByKey(SortByKey(m)) && multiset(SortByKey(m)) == multiset(m)
  {
    if |m| > 0 {
      var tail := m[1..];
      assert Keys(tail) == Keys(m)[1..];
      SortByKeySorted(tail);
      forall x | x in SortByKey(tail)
        ensures x.0 != m[0].0
      {
        assert x in multiset(tail);
        var k :| 0 <= k < |tail| && tail[k] == x;
        assert Keys(m)[k + 1] == x.0;
      }
      InsertSorted(m[0], SortByKey(tail));
    }
  }

  /** Sorted names are distinct names. */
  lemma SortedWellFormed<V>(m: OrderedMap<V>)
    requires SortedByKey(m)
    ensures WellFormed(m)
  {
    forall i, j | 0 <= i < j < |m|
      ensures Keys(m)[i] != Keys(m)[j]
    {
      BeforeStrict(m[i].0, m[j].0);
    }
  }

  // ---------------------------------------------------------------------
  // getCacheControlHeader
  // ---------------------------------------------------------------------

  /** The characters a value may hold without quotes: `[a-zA-Z0-9._-]`. */
  predicate TokenChar(c: char) {
    ('a' <= c <= 'z') || ('A' <= c <= 'Z') || ('0' <= c <= '9') || c == '.' || c == '_' || c == '-'
  }

  predicate NeedsQuotes(v: string) {
    exists i :: 0 <= i < |v| && !TokenChar(v[i])
  }

  /** One directive as it appears in the header. */
  function Part(name: string, d: Directive): string {
    match d
    case Flag => name
    case Text(v) => name + "=" + (if NeedsQuotes(v) then "\"" + v + "\"" else v)
  }

  function Parts(m: Directives): (r: seq<string>)
    ensures |r| == |m|
    ensures forall i :: 0 <= i < |m| ==> r[i] == Part(m[i].0, m[i].1)
  {
    seq(|m|, i requires 0 <= i < |m| => Part(m[i].0, m[i].1))
  }

  /** The header value getCacheControlHeader produces for directives already sorted. */
  function Render(m: Directives): string {
    Join(Parts(m), ", ")
  }

  // ---------------------------------------------------------------------
  // parseCacheControl
  // ---------------------------------------------------------------------

  predicate NameStart(c: char) {
    ('a' <= c <= 'z') || ('A' <= c <= 'Z')
  }

  predicate NameChar(c: char) {
    NameStart(c) || c == '_' || c == '-'
  }

  /** PCRE's `\s` without Unicode support. */
  predicate Space(c: char) {
    c == ' ' || c == '\t' || c == '\n' || c == 11 as char || c == 12 as char || c == '\r'
  }

  predicate NotQuote(c: char) {
    c != '"'
  }

  /** `[^ \t",;]` */
  predicate BareChar(c: char) {
    c != ' ' && c != '\t' && c != '"' && c != ',' && c != ';'
  }

  /** The length of the longest prefix of `s` whose characters all satisfy `p`. */
  function Span(s: string, p: char -> bool): (n: nat)
    ensures n <= |s|
    ensures forall i :: 0 <= i < n ==> p(s[i])
    ensures n < |s| ==> !p(s[n])
  {
    if |s| == 0 || !p(s[0]) then 0 else 1 + Span(s[1..], p)
  }

  lemma SpanIs(s: string, p: char -> bool, n: nat)
    requires n <= |s|
    requires forall i :: 0 <= i < n ==> p(s[i])
    requires n < |s| ==> !p(s[n])
    ensures Span(s, p) == n
  {
  }

  /** One match of the pattern at the start of `s`: the name, the value the code assigns, and the match length. */
  datatype DirectiveMatch = DirectiveMatch(name: string, value: Directive, length: nat)

  /** The value the optional `=...` group assigns, and how many characters it takes. */
  datatype Assigned = Assigned(value: Directive, length: nat)

  /** `"([^"]*)"`: `after` opens a quote that `1 + q` closes; an empty or "0" text is falsy and gives true. */
  function QuotedValue(after: string, q: nat): (a: Assigned)
    requires 1 + q < |after|
    ensures a.length == q + 2
  {
    var inner := after[1..1 + q];
    Assigned(if Truthy(inner) then Text(inner) else Flag, q + 2)
  }

  /** `([^ \t",;]*)`, which may match nothing. */
  function BareValue(after: string): (a: Assigned)
    ensures a.length <= |after|
  {
    var u := Span(after, BareChar);
    Assigned(Text(after[..u]), u)
  }

  /** The optional group at the start of `rest`: the quoted alternative is tried first. */
  function ValuePart(rest: string): (a: Assigned)
    ensures a.length <= |rest|
  {
    if |rest| > 0 && rest[0] == '=' then
      var after := rest[1..];
      var q := if |after| > 0 then Span(after[1..], NotQuote) else 0;
      var a := if |after| > 0 && after[0] == '"' && 1 + q < |after| then QuotedValue(after, q) else BareValue(after);
      Assigned(a.value, 1 + a.length)
    else Assigned(Flag, 0)
  }

  function MatchDirective(s: string): (m: DirectiveMatch)
    requires |s| > 0 && NameStart(s[0])
    ensures 0 < m.length <= |s|
  {
    var n := Span(s, NameChar);
    var w := Span(s[n..], Space);
    var a := ValuePart(s[n + w..]);
    DirectiveMatch(s[..n], a.value, n + w + a.length)
  }

  /** Every match in `s`, in order, with the name lower-cased. */
  function Scan(s: string): seq<(string, Directive)>
    decreases |s|
  {
    if |s| == 0 then []
    else if NameStart(s[0]) then
      var m := MatchDirective(s);
      [(Lower(m.name), m.value)] + Scan(s[m.length..])
    else Scan(s[1..])
  }

  /** parseCacheControl: each match assigned in turn, so a repeated name keeps its first place and its last value. */
  function Parse(header: string): Directives {
    PutAll([], Scan(header))
  }

  /** What parseCacheControl returns, key by key. */
  lemma ParseLookup(header: string, k: string)
    ensures WellFormed(Parse(header))
    ensures Keys(Parse(header)) == AppendNew([], Keys(Scan(header)))
    ensures Lookup(Parse(header), k) == LastValue(Scan(header), k)
  {
    PutAllKeys([], Scan(header));
    AppendNewDistinct([], Keys(Scan(header)));
    PutAllLookup([], Scan(header), k);
  }

  // ---------------------------------------------------------------------
  // Round trip
  // ---------------------------------------------------------------------

  /** A name the parser reads back unchanged: a lower-case letter, then lower-case letters, `_` or `-`. */
  predicate DirectiveName(k: string) {
    |k| > 0 && 'a' <= k[0] <= 'z' && forall i :: 0 <= i < |k| ==> ('a' <= k[i] <= 'z') || k[i] == '_' || k[i] == '-'
  }

  /** Directives whose rendering parses back: plain names and no `"` inside a value. */
  predicate Renderable(m: Directives) {
    forall i :: 0 <= i < |m| ==> DirectiveName(m[i].0) && (m[i].1.Text? ==> '"' !in m[i].1.s)
  }

  lemma SkipSeparator(rest: string)
    ensures Scan(", " + rest) == Scan(rest)
  {
    assert (", " + rest)[1..] == " " + rest;
    assert (" " + rest)[1..] == rest;
  }

  /** A directive name, then something that is neither a name character nor a space. */
  lemma NameThenValue(k: string, rest: string)
    requires DirectiveName(k)
    requires rest == "" || (!NameChar(rest[0]) && !Space(rest[0]))
    ensures MatchDirective(k + rest) == DirectiveMatch(k, ValuePart(rest).value, |k| + ValuePart(rest).length)
  {
    var s := k + rest;
    SpanIs(s, NameChar, |k|);
    assert s[..|k|] == k && s[|k|..] == rest;
    SpanIs(rest, Space, 0);
    assert s[|k| + 0..] == rest;
  }

  lemma BarePart(v: string, tail: string)
    requires !NeedsQuotes(v)
    requires tail == "" || tail[0] == ','
    ensures ValuePart("=" + v + tail) == Assigned(Text(v), 1 + |v|)
  {
    var after := v + tail;
    assert ("=" + v + tail)[1..] == after;
    if |v| > 0 {
      assert after[0] == v[0] && TokenChar(v[0]);
    }
    SpanIs(after, BareChar, |v|);
    assert after[..|v|] == v;
  }

  lemma QuotedPart(v: string, tail: string)
    requires NeedsQuotes(v) && '"' !in v
    ensures ValuePart("=" + ("\"" + v + "\"") + tail) == Assigned(Text(v), |v| + 3)
  {
    var after := "\"" + v + "\"" + tail;
    assert ("=" + ("\"" + v + "\"") + tail)[1..] == after;
    assert after[1..] == v + "\"" + tail;
    SpanIs(after[1..], NotQuote, |v|);
    assert after[1..1 + |v|] == v;
    var i :| 0 <= i < |v| && !TokenChar(v[i]);
    assert v != "0" by {
      assert |v| != 1 || v[0] != '0';
    }
  }

  /** The scan reads one directive at the start of `s`, then goes on with `rest`. */
  lemma ScanOne(s: string, k: string, d: Directive, rest: string)
    requires |s| > 0 && NameStart(s[0])
    requires MatchDirective(s).name == k && MatchDirective(s).value == d
    requires s[MatchDirective(s).length..] == rest
    requires Lower(k) == k
    ensures Scan(s) == [(k, d)] + Scan(rest)
  {
  }

  /** A directive name followed by a value part of `len` characters is read as one directive, and the scan goes on after it. */
  lemma ScanDirective(k: string, rest: string, d: Directive, len: nat, tail: string)
    requires DirectiveName(k)
    requires rest == "" || (!NameChar(rest[0]) && !Space(rest[0]))
    requires ValuePart(rest) == Assigned(d, len)
    requires len <= |rest| && rest[len..] == tail
    ensures Scan(k + rest) == [(k, d)] + Scan(tail)
  {
    NameThenValue(k, rest);
    var s := k + rest;
    assert s[|k| + len..] == tail;
    assert Lower(k) == k;
    ScanOne(s, k, d, tail);
  }

  lemma ScanFlagPart(k: string, tail: string)
    requires DirectiveName(k)
    requires tail == "" || tail[0] == ','
    ensures Scan(k + tail) == [(k, Flag)] + Scan(tail)
  {
    assert tail[0..] == tail;
    ScanDirective(k, tail, Flag, 0, tail);
  }

  lemma Associative(a: string, b: string, c: string)
    ensures (a + b) + c == a + (b + c)
  {
  }

  /** A directive with a text value, bare or quoted, is read back as itself. */
  lemma ScanTextPart(k: string, v: string, tail: string)
    requires DirectiveName(k) && '"' !in v
    requires tail == "" || tail[0] == ','
    ensures Scan(Part(k, Text(v)) + tail) == [(k, Text(v))] + Scan(tail)
  {
    var value := if NeedsQuotes(v) then "\"" + v + "\"" else v;
    var rest := "=" + value + tail;
    assert Part(k, Text(v)) == (k + "=") + value;
    Associative(k, "=", value);
    Associative(k, "=" + value, tail);
    if NeedsQuotes(v) {
      QuotedPart(v, tail);
    } else {
      BarePart(v, tail);
    }
    assert rest[1 + |value|..] == tail;
    ScanDirective(k, rest, Text(v), 1 + |value|, tail);
  }

  /** One rendered directive is read back as itself. */
  lemma ScanPart(k: string, d: Directive, tail: string)
    requires DirectiveName(k)
    requires d.Text? ==> '"' !in d.s
    requires tail == "" || tail[0] == ','
    ensures Scan(Part(k, d) + tail) == [(k, d)] + Scan(tail)
  {
    match d
    case Flag =>
      ScanFlagPart(k, tail);
    case Text(v) =>
      ScanTextPart(k, v, tail);
  }

  /** Scanning a rendered list gives the list back. */
  lemma {:induction false} ScanRender(m: Directives)
    requires Renderable(m)
    ensures Scan(Render(m)) == m
  {
    if |m| == 1 {
      ScanPart(m[0].0, m[0].1, "");
      assert Part(m[0].0, m[0].1) + "" == Render(m);
    } else if |m| > 1 {
      var rest := Render(m[1..]);
      assert Parts(m)[1..] == Parts(m[1..]);
      assert Render(m) == Part(m[0].0, m[0].1) + (", " + rest);
      ScanPart(m[0].0, m[0].1, ", " + rest);
      SkipSeparator(rest);
      ScanRender(m[1..]);
      assert m == [m[0]] + m[1..];
    }
  }

  /** Assigning pairs with distinct names, in order, to an empty array gives those pairs. */
  lemma {:induction false} PutAllDistinct<V>(m: OrderedMap<V>)
    requires WellFormed(m)
    ensures PutAll([], m) == m
  {
    if |m| > 0 {
      var init := m[..|m| - 1];
      assert Keys(init) == Keys(m)[..|m| - 1];
      PutAllDistinct(init);
      var k := m[|m| - 1].0;
      forall i | 0 <= i < |init|
        ensures Keys(init)[i] != k
      {
        assert Keys(m)[i] == Keys(init)[i];
      }
      assert init + [m[|m| - 1]] == m;
    }
  }

  /** The header getCacheControlHeader writes parses back to the sorted directives. */
  lemma ParseRender(m: Directives)
    requires WellFormed(m) && Renderable(m)
    ensures Parse(Render(SortByKey(m))) == SortByKey(m)
  {
    var sorted := SortByKey(m);
    SortByKeySorted(m);
    forall i | 0 <= i < |sorted|
      ensures DirectiveName(sorted[i].0) && (sorted[i].1.Text? ==> '"' !in sorted[i].1.s)
    {
      assert sorted[i] in multiset(m);
      var j :| 0 <= j < |m| && m[j] == sorted[i];
    }
    ScanRender(sorted);
    SortedWellFormed(sorted);
    PutAllDistinct(sorted);
  }

  /** A quoted value keeps separators and spaces that a bare value could not. */
  lemma QuotedValueExample()
    ensures Parse("private=\"x, y\"") == [("private", Text("x, y"))]
  {
    assert !TokenChar("x, y"[1]);
    assert Part("private", Text("x, y")) + "" == "private=\"x, y\"";
    ScanPart("private", Text("x, y"), "");
  }
}
