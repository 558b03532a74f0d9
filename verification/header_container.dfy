/**
 * HeaderContainer (src/Ignite/Http/HeaderContainer.php): HTTP headers as
 * an ordered map from a normalised name (lower case, `_` read as `-`) to a
 * list of values, plus the Cache-Control directives parsed from the
 * `cache-control` header.
 *
 * Deviation from the code as written: HeaderContainer.php:108 parses
 * `$values[0]`, which is the first value when `$values` is a list but the
 * first CHARACTER when it is a string, as it is when
 * addCacheControlDirective writes the rendered header back; the model
 * parses the whole first value (FirstValue, FirstValueAsWritten).
 *
 * Deviation from the code as written: lines 101-104 store a string
 * argument as it is, and get (line 91, `count`) and set (line 104,
 * `array_merge`) then fail on it with a TypeError; the model stores a
 * string as a one-value list, which is what get expects of every stored
 * entry (StoreAsWritten, StringHeaderReadsBack).
 */
module HttpHeaders {
  import opened Wrappers
  import opened Strings
  import opened OrderedMaps
  import opened CacheControl

  /** strtr(strtolower($key), '_', '-') */
  function NormalizeKey(key: string): (r: string)
    ensures |r| == |key|
    ensures forall i :: 0 <= i < |r| ==> r[i] != '_' && !('A' <= r[i] <= 'Z')
  {
    ReplaceChar(Lower(key), '_', '-')
  }

  predicate Normalized(k: string) {
    NormalizeKey(k) == k
  }

  /** Normalising twice is normalising once. */
  lemma NormalizeKeyIdempotent(key: string)
    ensures Normalized(NormalizeKey(key))
  {
  }

  /** `Content_Type` and `content-type` name the same header. */
  lemma SameHeaderExample()
    ensures NormalizeKey("Content_Type") == NormalizeKey("content-type") == "content-type"
  {
  }

  /** The `string|array $values` argument of set. */
  datatype HeaderArg = One(value: string) | Many(values: seq<string>)

  function Values(arg: HeaderArg): seq<string> {
    match arg
    case One(v) => [v]
    case Many(vs) => vs
  }

  /** The header value set hands to parseCacheControl: the whole first value. */
  function FirstValue(arg: HeaderArg): string {
    match arg
    case One(v) => v
    case Many(vs) => if |vs| > 0 then vs[0] else ""
  }

  /** HeaderContainer.php:108 as written: `$values[0]` of a string is its first character. */
  function FirstValueAsWritten(arg: HeaderArg): string {
    match arg
    case One(v) => if |v| > 0 then v[..1] else ""
    case Many(vs) => if |vs| > 0 then vs[0] else ""
  }

  /** Both fields of a container. */
  datatype HeaderState = HeaderState(headers: OrderedMap<seq<string>>, cacheControl: Directives)

  predicate AllNormalized(headers: OrderedMap<seq<string>>) {
    forall k :: k in Keys(headers) ==> Normalized(k)
  }

  predicate StateValid(st: HeaderState) {
    WellFormed(st.headers) && AllNormalized(st.headers) && WellFormed(st.cacheControl)
  }

  /** The values set stores: the new ones, or the old ones followed by the new ones. */
  function StoredValues(existing: Option<seq<string>>, arg: HeaderArg, replace: bool): seq<string> {
    if replace || existing.None? then Values(arg) else existing.value + Values(arg)
  }

  /** set($key, $values, $replace) */
  function SetState(st: HeaderState, key: string, arg: HeaderArg, replace: bool): HeaderState {
    var k := NormalizeKey(key);
    var values := StoredValues(Lookup(st.headers, k), arg, replace);
    HeaderState(Put(st.headers, k, values), if k == "cache-control" then Parse(FirstValue(arg)) else st.cacheControl)
  }

  /** add: set with replacement for every pair in turn. */
  function AddAll(st: HeaderState, hs: OrderedMap<HeaderArg>): HeaderState
    decreases |hs|
  {
    if |hs| == 0 then st
    else SetState(AddAll(st, hs[..|hs| - 1]), hs[|hs| - 1].0, hs[|hs| - 1].1, true)
  }

  lemma SetStateValid(st: HeaderState, key: string, arg: HeaderArg, replace: bool)
    requires StateValid(st)
    ensures StateValid(SetState(st, key, arg, replace))
  {
    var k := NormalizeKey(key);
    var values := StoredValues(Lookup(st.headers, k), arg, replace);
    PutWellFormed(st.headers, k, values);
    PutKeys(st.headers, k, values);
    AppendNewMembers(Keys(st.headers), [k]);
    NormalizeKeyIdempotent(key);
    ParseLookup(FirstValue(arg), "");
  }

  lemma {:induction false} AddAllValid(st: HeaderState, hs: OrderedMap<HeaderArg>)
    requires StateValid(st)
    ensures StateValid(AddAll(st, hs))
  {
    if |hs| > 0 {
      AddAllValid(st, hs[..|hs| - 1]);
      SetStateValid(AddAll(st, hs[..|hs| - 1]), hs[|hs| - 1].0, hs[|hs| - 1].1, true);
    }
  }

  /** After add over an empty header map, every header comes from one of the added names. */
  lemma {:induction false} AddAllKeys(cc: Directives, hs: OrderedMap<HeaderArg>)
    ensures forall k :: k in Keys(AddAll(HeaderState([], cc), hs).headers) ==>
      exists i :: 0 <= i < |hs| && NormalizeKey(hs[i].0) == k
  {
    if |hs| > 0 {
      var init := hs[..|hs| - 1];
      var prev := AddAll(HeaderState([], cc), init);
      AddAllKeys(cc, init);
      var last := hs[|hs| - 1];
      var r := SetState(prev, last.0, last.1, true);
      PutKeys(prev.headers, NormalizeKey(last.0), Values(last.1));
      AppendNewMembers(Keys(prev.headers), [NormalizeKey(last.0)]);
      forall k | k in Keys(r.headers)
        ensures exists i :: 0 <= i < |hs| && NormalizeKey(hs[i].0) == k
      {
        if k != NormalizeKey(last.0) {
          var i :| 0 <= i < |init| && NormalizeKey(init[i].0) == k;
          assert hs[i] == init[i];
        }
      }
    }
  }

  /** What get returns. */
  datatype Answer = First(value: Option<string>) | All(values: seq<string>)

  /** get($key, $default, $first) */
  function GetSpec(headers: OrderedMap<seq<string>>, key: string, default: Option<string>, first: bool): Answer {
    var found := Lookup(headers, NormalizeKey(key));
    if found.None? then
      if first then First(default) else All(if default.None? then [] else [default.value])
    else if first then First(if |found.value| > 0 then Some(found.value[0]) else default)
    else All(found.value)
  }

  /** The first-value form is the head of the list form, or the default for an empty or absent list. */
  lemma FirstIsHead(headers: OrderedMap<seq<string>>, key: string, default: Option<string>)
    ensures var all := GetSpec(headers, key, None, false).values;
      GetSpec(headers, key, default, true) == First(if |all| > 0 then Some(all[0]) else default)
  {
  }

  /** set with replacement: any spelling of the name then reads back exactly the new values. */
  lemma SetThenGet(st: HeaderState, key: string, key2: string, arg: HeaderArg, default: Option<string>)
    requires NormalizeKey(key2) == NormalizeKey(key)
    ensures GetSpec(SetState(st, key, arg, true).headers, key2, default, false) == All(Values(arg))
  {
    PutLookup(st.headers, NormalizeKey(key), Values(arg), NormalizeKey(key));
  }

  /** set without replacement on a present name appends to its values. */
  lemma AppendThenGet(st: HeaderState, key: string, arg: HeaderArg, default: Option<string>)
    requires Lookup(st.headers, NormalizeKey(key)).Some?
    ensures GetSpec(SetState(st, key, arg, false).headers, key, default, false)
      == All(Lookup(st.headers, NormalizeKey(key)).value + Values(arg))
  {
    var k := NormalizeKey(key);
    PutLookup(st.headers, k, Lookup(st.headers, k).value + Values(arg), k);
  }

  /** set without replacement on an absent name stores the values. */
  lemma NewThenGet(st: HeaderState, key: string, arg: HeaderArg, default: Option<string>)
    requires Lookup(st.headers, NormalizeKey(key)).None?
    ensures GetSpec(SetState(st, key, arg, false).headers, key, default, false) == All(Values(arg))
  {
    PutLookup(st.headers, NormalizeKey(key), Values(arg), NormalizeKey(key));
  }

  /** set leaves every other header as it was. */
  lemma SetLeavesOthers(st: HeaderState, key: string, key2: string, arg: HeaderArg, replace: bool, default: Option<string>, first: bool)
    requires NormalizeKey(key2) != NormalizeKey(key)
    ensures GetSpec(SetState(st, key, arg, replace).headers, key2, default, first) == GetSpec(st.headers, key2, default, first)
  {
    var k := NormalizeKey(key);
    PutLookup(st.headers, k, StoredValues(Lookup(st.headers, k), arg, replace), NormalizeKey(key2));
  }

  /** After remove, any spelling of the name is absent. */
  lemma RemoveThenGet(headers: OrderedMap<seq<string>>, key: string, key2: string, default: Option<string>)
    requires WellFormed(headers)
    requires NormalizeKey(key2) == NormalizeKey(key)
    ensures GetSpec(Unset(headers, NormalizeKey(key)), key2, default, false) == All(if default.None? then [] else [default.value])
  {
    UnsetLookup(headers, NormalizeKey(key), NormalizeKey(key));
  }

  /** The directives after addCacheControlDirective: the header is rendered from the sorted directives and parsed back. */
  function DirectivesAfterAdd(cc: Directives, key: string, d: Directive): Directives {
    Parse(FirstValue(One(Render(SortByKey(Put(cc, key, d))))))
  }

  function DirectivesAfterAddAsWritten(cc: Directives, key: string, d: Directive): Directives {
    Parse(FirstValueAsWritten(One(Render(SortByKey(Put(cc, key, d))))))
  }

  /** Adding a directive keeps every directive, sorted, when their names and values render back. */
  lemma AddDirectiveKeepsAll(cc: Directives, key: string, d: Directive)
    requires WellFormed(cc)
    requires Renderable(Put(cc, key, d))
    ensures DirectivesAfterAdd(cc, key, d) == SortByKey(Put(cc, key, d))
  {
    PutWellFormed(cc, key, d);
    ParseRender(Put(cc, key, d));
  }

  /** The normalised name of `Cache-Control`. */
  lemma CacheControlName()
    ensures NormalizeKey("Cache-Control") == "cache-control"
  {
  }

  lemma RenderMaxAge()
    ensures SortByKey(Put([], "max-age", Text("60"))) == [("max-age", Text("60"))]
    ensures Render([("max-age", Text("60"))]) == "max-age=60"
  {
    assert !NeedsQuotes("60") by {
      forall i | 0 <= i < 2
        ensures TokenChar("60"[i])
      {
      }
    }
    assert Part("max-age", Text("60")) == "max-age=60";
    assert Parts([("max-age", Text("60"))]) == ["max-age=60"];
  }

  lemma ParseM()
    ensures Parse("m") == [("m", Flag)]
  {
    ScanFlagPart("m", "");
    assert "m" + "" == "m";
  }

  /** As written, adding `max-age=60` to no directives leaves only a directive named `m`. */
  lemma AddDirectiveAsWrittenLosesValue()
    ensures DirectivesAfterAddAsWritten([], "max-age", Text("60")) == [("m", Flag)]
  {
    RenderMaxAge();
    assert FirstValueAsWritten(One("max-age=60")) == "m";
    ParseM();
  }

  /** With the whole value parsed, the same addition keeps the directive and its value. */
  lemma AddDirectiveKeepsValue()
    ensures DirectivesAfterAdd([], "max-age", Text("60")) == [("max-age", Text("60"))]
  {
    RenderMaxAge();
    AddDirectiveKeepsAll([], "max-age", Text("60"));
  }

  /** An entry of `$this->headers` as lines 101-104 store it: the argument itself. */
  datatype StoredAsWritten = StoredString(s: string) | StoredList(vs: seq<string>)

  /** A PHP 8 TypeError raised by the named built-in. */
  datatype TypeError = TypeError(builtin: string)

  function StoredOf(arg: HeaderArg): StoredAsWritten {
    match arg
    case One(v) => StoredString(v)
    case Many(vs) => StoredList(vs)
  }

  /** set as written: the argument is stored as given, and array_merge refuses a string on either side. */
  function StoreAsWritten(existing: Option<StoredAsWritten>, arg: HeaderArg, replace: bool): Result<StoredAsWritten, TypeError> {
    if replace || existing.None? then Ok(StoredOf(arg))
    else match (existing.value, arg)
      case (StoredList(prev), Many(vs)) => Ok(StoredList(prev + vs))
      case _ => Err(TypeError("array_merge"))
  }

  /** get with `$first` as written: count of a string is a TypeError. */
  function GetFirstAsWritten(entry: StoredAsWritten, default: Option<string>): Result<Option<string>, TypeError> {
    match entry
    case StoredString(_) => Err(TypeError("count"))
    case StoredList(vs) => Ok(if |vs| > 0 then Some(vs[0]) else default)
  }

  /**
   * As written, a header set from a string cannot be read back or appended
   * to: addCacheControlDirective sets `max-age=60` as a string, and the
   * next get of `Cache-Control` fails, as does a later append in either
   * order.
   */
  lemma StringHeaderAsWritten(v: string, w: string, default: Option<string>)
    ensures var header := Render(SortByKey(Put([], "max-age", Text("60"))));
      && StoreAsWritten(None, One(header), true) == Ok(StoredString(header))
      && GetFirstAsWritten(StoredString(header), default) == Err(TypeError("count"))
    ensures StoreAsWritten(Some(StoredString(v)), Many([w]), false) == Err(TypeError("array_merge"))
    ensures StoreAsWritten(Some(StoredList([w])), One(v), false) == Err(TypeError("array_merge"))
  {
  }

  /**
   * With a string stored as a one-value list, a header set from a string
   * reads back as its first value, and a string appended to a present
   * header becomes its last value.
   */
  lemma StringHeaderReadsBack(st: HeaderState, key: string, v: string, default: Option<string>)
    ensures GetSpec(SetState(st, key, One(v), true).headers, key, default, true) == First(Some(v))
    ensures Lookup(st.headers, NormalizeKey(key)).Some? ==>
      GetSpec(SetState(st, key, One(v), false).headers, key, default, false)
        == All(Lookup(st.headers, NormalizeKey(key)).value + [v])
  {
    var headers := SetState(st, key, One(v), true).headers;
    SetThenGet(st, key, key, One(v), None);
    FirstIsHead(headers, key, default);
    if Lookup(st.headers, NormalizeKey(key)).Some? {
      AppendThenGet(st, key, One(v), default);
    }
  }

  class HeaderContainer {
    var headers: OrderedMap<seq<string>>
    var cacheControl: Directives

    ghost predicate Valid()
      reads this
    {
      StateValid(HeaderState(headers, cacheControl))
    }

    /** Every given header is set, in order. */
    constructor(hs: OrderedMap<HeaderArg>)
      ensures Valid()
      ensures HeaderState(headers, cacheControl) == AddAll(HeaderState([], []), hs)
    {
      cacheControl := [];
      headers := [];
      new;
      Add(hs);
    }

    method Set(key: string, arg: HeaderArg, replace: bool)
      requires Valid()
      modifies this
      ensures Valid()
      ensures HeaderState(headers, cacheControl) == SetState(old(HeaderState(headers, cacheControl)), key, arg, replace)
    {
      SetStateValid(HeaderState(headers, cacheControl), key, arg, replace);
      var k := NormalizeKey(key);
      var existing := Lookup(headers, k);
      if replace || existing.None? {
        headers := Put(headers, k, Values(arg));
      } else {
        headers := Put(headers, k, existing.value + Values(arg));
      }
      if k == "cache-control" {
        cacheControl := ParseCacheControl(FirstValue(arg));
      }
    }

    method Add(hs: OrderedMap<HeaderArg>)
      requires Valid()
      modifies this
      ensures Valid()
      ensures HeaderState(headers, cacheControl) == AddAll(old(HeaderState(headers, cacheControl)), hs)
    {
      for i := 0 to |hs|
        invariant Valid()
        invariant HeaderState(headers, cacheControl) == AddAll(old(HeaderState(headers, cacheControl)), hs[..i])
      {
        assert hs[..i + 1][..i] == hs[..i];
        Set(hs[i].0, hs[i].1, true);
      }
      assert hs[..|hs|] == hs;
    }

    /** replace: the headers are emptied first; the directives are not. */
    method Replace(hs: OrderedMap<HeaderArg>)
      requires Valid()
      modifies this
      ensures Valid()
      ensures HeaderState(headers, cacheControl) == AddAll(HeaderState([], old(cacheControl)), hs)
    {
      headers := [];
      Add(hs);
    }

    /**
     * get: the header's list of values, or its first value; an absent
     * header gives the default (null or `[]` without one), and an empty
     * list gives the default as its first value.
     */
    function Get(key: string, default: Option<string>, first: bool): (r: Answer)
      reads this
      ensures r.First? <==> first
      ensures !Has(key) ==> r == if first then First(default) else All(if default.None? then [] else [default.value])
      ensures Has(key) && !first ==> r.values == Lookup(headers, NormalizeKey(key)).value
      ensures Has(key) && first ==> var vs := Lookup(headers, NormalizeKey(key)).value;
        r.value == if |vs| > 0 then Some(vs[0]) else default
    {
      GetSpec(headers, key, default, first)
    }

    /** has: some spelling of the name is stored. */
    predicate Has(key: string)
      reads this
      ensures Has(key) <==> Lookup(headers, NormalizeKey(key)).Some?
    {
      NormalizeKey(key) in Keys(headers)
    }

    /**
     * contains: in_array with loose comparison over the header's values;
     * an absent header holds nothing.
     */
    predicate Contains(key: string, value: string)
      reads this
      ensures !Has(key) ==> !Contains(key, value)
      ensures Has(key) && value in Lookup(headers, NormalizeKey(key)).value ==> Contains(key, value)
      ensures Contains(key, value) && IntegerNumeric(value).None? ==> value in Lookup(headers, NormalizeKey(key)).value
    {
      InArray(value, GetSpec(headers, key, None, false).values)
    }

    /** remove: the header goes, and with `cache-control` the directives too. */
    method Remove(key: string)
      requires Valid()
      modifies this
      ensures Valid()
      ensures headers == Unset(old(headers), NormalizeKey(key))
      ensures cacheControl == if NormalizeKey(key) == "cache-control" then [] else old(cacheControl)
    {
      var k := NormalizeKey(key);
      UnsetWellFormed(headers, k);
      UnsetKeys(headers, k);
      headers := Unset(headers, k);
      if k == "cache-control" {
        cacheControl := [];
      }
    }

    /** getCacheControlHeader: ksort in place, then the header value. */
    method GetCacheControlHeader() returns (r: string)
      requires Valid()
      modifies this`cacheControl
      ensures Valid()
      ensures cacheControl == SortByKey(old(cacheControl))
      ensures r == Render(cacheControl)
    {
      SortByKeySorted(cacheControl);
      SortedWellFormed(SortByKey(cacheControl));
      cacheControl := SortByKey(cacheControl);
      r := JoinDirectives(cacheControl);
    }

    /** The loop of getCacheControlHeader: one part per directive, joined by ", ". */
    static method JoinDirectives(m: Directives) returns (r: string)
      ensures r == Render(m)
    {
      var parts: seq<string> := [];
      for i := 0 to |m|
        invariant parts == Parts(m[..i])
      {
        var key := m[i].0;
        var d := m[i].1;
        if d.Flag? {
          parts := parts + [key];
        } else {
          var value := d.s;
          if NeedsQuotes(value) {
            value := "\"" + value + "\"";
          }
          parts := parts + [key + "=" + value];
        }
      }
      assert m[..|m|] == m;
      r := Join(parts, ", ");
    }

    /** parseCacheControl: each match is assigned in turn. */
    method ParseCacheControl(header: string) returns (r: Directives)
      ensures r == Parse(header)
    {
      var matches := Scan(header);
      r := [];
      for i := 0 to |matches|
        invariant r == PutAll([], matches[..i])
      {
        assert matches[..i + 1][..i] == matches[..i];
        r := Put(r, matches[i].0, matches[i].1);
      }
      assert matches[..|matches|] == matches;
    }

    /** addCacheControlDirective: the directive is assigned, and the rendered header is set. */
    method AddCacheControlDirective(key: string, d: Directive)
      requires Valid()
      modifies this
      ensures Valid()
      ensures cacheControl == DirectivesAfterAdd(old(cacheControl), key, d)
      ensures headers == Put(old(headers), "cache-control", [Render(SortByKey(Put(old(cacheControl), key, d)))])
      ensures Get("Cache-Control", None, true) == First(Some(Render(SortByKey(Put(old(cacheControl), key, d)))))
    {
      PutWellFormed(cacheControl, key, d);
      CacheControlName();
      cacheControl := Put(cacheControl, key, d);
      var header := GetCacheControlHeader();
      StringHeaderReadsBack(HeaderState(headers, cacheControl), "Cache-Control", header, None);
      Set("Cache-Control", One(header), true);
    }

    /** removeCacheControlDirective: the directive is unset, and the rendered header is set. */
    method RemoveCacheControlDirective(key: string)
      requires Valid()
      modifies this
      ensures Valid()
      ensures cacheControl == Parse(Render(SortByKey(Unset(old(cacheControl), key))))
      ensures headers == Put(old(headers), "cache-control", [Render(SortByKey(Unset(old(cacheControl), key)))])
    {
      UnsetWellFormed(cacheControl, key);
      CacheControlName();
      cacheControl := Unset(cacheControl, key);
      var header := GetCacheControlHeader();
      Set("Cache-Control", One(header), true);
    }

    /** hasCacheControlDirective: the directive is present, exactly when getCacheControlDirective finds it. */
    predicate HasCacheControlDirective(key: string)
      reads this
      ensures HasCacheControlDirective(key) <==> GetCacheControlDirective(key).Some?
    {
      key in Keys(cacheControl)
    }

    /** getCacheControlDirective: the stored directive of that name, or null. */
    function GetCacheControlDirective(key: string): (r: Option<Directive>)
      reads this
      ensures r.Some? <==> key in Keys(cacheControl)
      ensures r.Some? ==> exists i :: 0 <= i < |cacheControl| && cacheControl[i] == (key, r.value)
    {
      LookupFound(cacheControl, key);
      Lookup(cacheControl, key)
    }
  }
}
