/**
 * ParameterContainer (src/Ignite/Http/ParameterContainer.php): a bag of
 * request parameters. Keys keep insertion order; values are strings, null,
 * or nested arrays, which a deep lookup `root[k1][k2]` descends.
 */
module HttpParameters {
  import opened Wrappers
  import opened Strings
  import OrderedMaps

  /** A parameter value; nested arrays are looked up by key only, so their order is not kept. */
  datatype Value = Null | Str(s: string) | Array(items: map<string, Value>)

  /** Why get or a filter fails. */
  datatype ParameterError =
    | UnexpectedOpen(position: nat)
    | UnexpectedClose(position: nat)
    | UnexpectedChar(c: char, position: nat)
    | UnclosedKey
    | NotAString

  /**
   * The character loop of a deep get over the rest `rest` of the path,
   * which starts at `position`: `key` is the key being read inside
   * brackets, if any, and `value` the value reached so far.
   */
  function Descend(rest: string, position: nat, key: Option<string>, value: Value, default: Value): Result<Value, ParameterError>
    decreases |rest|
  {
    if |rest| == 0 then
      if key.Some? then Err(UnclosedKey) else Ok(value)
    else
      var c := rest[0];
      if c == '[' then
        if key.Some? then Err(UnexpectedOpen(position))
        else Descend(rest[1..], position + 1, Some(""), value, default)
      else if c == ']' then
        if key.None? then Err(UnexpectedClose(position))
        else if !value.Array? || key.value !in value.items then Ok(default)
        else Descend(rest[1..], position + 1, None, value.items[key.value], default)
      else if key.None? then Err(UnexpectedChar(c, position))
      else Descend(rest[1..], position + 1, Some(key.value + [c]), value, default)
  }

  /** get($path, $default, $deep) over the parameter array. */
  function GetSpec(parameters: OrderedMaps.OrderedMap<Value>, path: string, default: Value, deep: bool): Result<Value, ParameterError> {
    var open := IndexOfFrom(path, '[', 0);
    if !deep || open.None? then
      var v := OrderedMaps.Lookup(parameters, path);
      Ok(if v.Some? then v.value else default)
    else
      var root := OrderedMaps.Lookup(parameters, path[..open.value]);
      if root.None? then Ok(default)
      else Descend(path[open.value..], open.value, None, root.value, default)
  }

  // ---------------------------------------------------------------------
  // The path grammar: root[k1][k2]...
  // ---------------------------------------------------------------------

  predicate PlainKey(k: string) {
    '[' !in k && ']' !in k
  }

  /** `[k1][k2]...` */
  function Brackets(ks: seq<string>): string {
    if |ks| == 0 then "" else "[" + ks[0] + "]" + Brackets(ks[1..])
  }

  /** Descending key by key; the default as soon as a level is missing or is not an array. */
  function Follow(value: Value, ks: seq<string>, default: Value): Value {
    if |ks| == 0 then value
    else if value.Array? && ks[0] in value.items then Follow(value.items[ks[0]], ks[1..], default)
    else default
  }

  /** Every key of `ks` is present, level by level, below `value`. */
  predicate Reaches(value: Value, ks: seq<string>) {
    |ks| == 0 || (value.Array? && ks[0] in value.items && Reaches(value.items[ks[0]], ks[1..]))
  }

  /** The characters of a key are gathered one by one. */
  lemma {:induction false} ReadKey(k: string, tail: string, position: nat, acc: string, value: Value, default: Value)
    requires PlainKey(k)
    ensures Descend(k + tail, position, Some(acc), value, default) == Descend(tail, position + |k|, Some(acc + k), value, default)
  {
    if |k| > 0 {
      assert (k + tail)[0] == k[0] && (k + tail)[1..] == k[1..] + tail;
      ReadKey(k[1..], tail, position + 1, acc + [k[0]], value, default);
      assert acc + [k[0]] + k[1..] == acc + k;
    } else {
      assert k + tail == tail && acc + k == acc;
    }
  }

  /** A well-formed path of plain keys finds the nested value, or the default. */
  lemma {:induction false} DescendBrackets(ks: seq<string>, position: nat, value: Value, default: Value)
    requires forall i :: 0 <= i < |ks| ==> PlainKey(ks[i])
    ensures Descend(Brackets(ks), position, None, value, default) == Ok(Follow(value, ks, default))
  {
    if |ks| > 0 {
      var k := ks[0];
      var rest := Brackets(ks[1..]);
      var s := "[" + k + "]" + rest;
      assert s[0] == '[' && s[1..] == k + ("]" + rest);
      ReadKey(k, "]" + rest, position + 1, "", value, default);
      assert "" + k == k;
      assert ("]" + rest)[0] == ']' && ("]" + rest)[1..] == rest;
      if value.Array? && k in value.items {
        DescendBrackets(ks[1..], position + 1 + |k| + 1, value.items[k], default);
      }
    }
  }

  /** get(root[k1]...[kn], default, true) is the nested lookup when the root holds no `[`. */
  lemma DeepGet(parameters: OrderedMaps.OrderedMap<Value>, root: string, ks: seq<string>, default: Value)
    requires '[' !in root && |ks| > 0
    requires forall i :: 0 <= i < |ks| ==> PlainKey(ks[i])
    ensures var v := OrderedMaps.Lookup(parameters, root);
      GetSpec(parameters, root + Brackets(ks), default, true) == Ok(if v.Some? then Follow(v.value, ks, default) else default)
  {
    var path := root + Brackets(ks);
    assert path[|root|] == '[';
    assert forall k :: 0 <= k < |root| ==> path[k] == root[k];
    assert IndexOfFrom(path, '[', 0) == Some(|root|);
    assert path[..|root|] == root && path[|root|..] == Brackets(ks);
    var v := OrderedMaps.Lookup(parameters, root);
    if v.Some? {
      DescendBrackets(ks, |root|, v.value, default);
    }
  }

  /**
   * A path that leaves a bracket open fails when every complete level
   * before it is present; a missing level returns the default first.
   */
  lemma UnclosedFails(ks: seq<string>, k: string, position: nat, value: Value, default: Value)
    requires forall i :: 0 <= i < |ks| ==> PlainKey(ks[i])
    requires PlainKey(k)
    ensures Descend(Brackets(ks) + "[" + k, position, None, value, default)
      == if Reaches(value, ks) then Err(UnclosedKey) else Ok(default)
  {
    ClosedPrefix(ks, "[" + k, position, value, default);
    assert Brackets(ks) + "[" + k == Brackets(ks) + ("[" + k);
    var p := position + |Brackets(ks)|;
    assert ("[" + k)[0] == '[' && ("[" + k)[1..] == k + "";
    ReadKey(k, "", p + 1, "", Follow(value, ks, default), default);
    assert Descend("[" + k, p, None, Follow(value, ks, default), default) == Err(UnclosedKey);
  }

  /** Descending through complete brackets, then the rest of the path. */
  lemma {:induction false} ClosedPrefix(ks: seq<string>, tail: string, position: nat, value: Value, default: Value)
    requires forall i :: 0 <= i < |ks| ==> PlainKey(ks[i])
    ensures Descend(Brackets(ks) + tail, position, None, value, default)
      == if Reaches(value, ks) then Descend(tail, position + |Brackets(ks)|, None, Follow(value, ks, default), default) else Ok(default)
  {
    if |ks| > 0 {
      var k := ks[0];
      var rest := Brackets(ks[1..]);
      var s := "[" + k + "]" + rest + tail;
      assert s[0] == '[' && s[1..] == k + ("]" + rest + tail);
      ReadKey(k, "]" + rest + tail, position + 1, "", value, default);
      assert "" + k == k;
      assert ("]" + rest + tail)[0] == ']' && ("]" + rest + tail)[1..] == rest + tail;
      assert Brackets(ks) + tail == s;
      if value.Array? && k in value.items {
        ClosedPrefix(ks[1..], tail, position + 1 + |k| + 1, value.items[k], default);
      }
    } else {
      assert Brackets(ks) + tail == tail;
    }
  }

  // ---------------------------------------------------------------------
  // Character-class filters
  // ---------------------------------------------------------------------

  /** The POSIX classes the filters keep, in the C locale. */
  datatype CharClass = Alpha | Digit | Alnum

  predicate InClass(c: char, cls: CharClass) {
    match cls
    case Alpha => 'a' <= c <= 'z' || 'A' <= c <= 'Z'
    case Digit => '0' <= c <= '9'
    case Alnum => 'a' <= c <= 'z' || 'A' <= c <= 'Z' || '0' <= c <= '9'
  }

  /** preg_replace('/[^[:class:]]/', '', $s) */
  function KeepOnly(s: string, cls: CharClass): (r: string)
    ensures forall i :: 0 <= i < |r| ==> InClass(r[i], cls)
    ensures forall c :: multiset(r)[c] == if InClass(c, cls) then multiset(s)[c] else 0
  {
    if |s| == 0 then ""
    else
      var rest := KeepOnly(s[1..], cls);
      assert s == [s[0]] + s[1..];
      if InClass(s[0], cls) then [s[0]] + rest else rest
  }

  /** A string made only of the class is left as it is. */
  lemma {:induction false} KeepOnlyUnchanged(s: string, cls: CharClass)
    requires forall i :: 0 <= i < |s| ==> InClass(s[i], cls)
    ensures KeepOnly(s, cls) == s
  {
    if |s| > 0 {
      KeepOnlyUnchanged(s[1..], cls);
      assert s == [s[0]] + s[1..];
    }
  }

  /** Filtering twice is filtering once. */
  lemma KeepOnlyIdempotent(s: string, cls: CharClass)
    ensures KeepOnly(KeepOnly(s, cls), cls) == KeepOnly(s, cls)
  {
    KeepOnlyUnchanged(KeepOnly(s, cls), cls);
  }

  /** The filter applied to what get returns: null reads as "", an array is refused by the string return type. */
  function FilterValue(v: Value, cls: CharClass): Result<string, ParameterError> {
    match v
    case Null => Ok("")
    case Str(s) => Ok(KeepOnly(s, cls))
    case Array(_) => Err(NotAString)
  }

  class ParameterContainer {
    var parameters: OrderedMaps.OrderedMap<Value>

    /** A PHP array holds each key once. */
    ghost predicate Valid()
      reads this
    {
      OrderedMaps.WellFormed(parameters)
    }

    constructor(parameters: OrderedMaps.OrderedMap<Value>)
      requires OrderedMaps.WellFormed(parameters)
      ensures Valid() && this.parameters == parameters
    {
      this.parameters := parameters;
    }

    /** replace: the whole array is swapped. */
    method Replace(parameters: OrderedMaps.OrderedMap<Value>)
      requires OrderedMaps.WellFormed(parameters)
      modifies this
      ensures Valid() && this.parameters == parameters
    {
      this.parameters := parameters;
    }

    /** set: only `key` changes. */
    method Set(key: string, value: Value)
      requires Valid()
      modifies this
      ensures Valid()
      ensures parameters == OrderedMaps.Put(old(parameters), key, value)
      ensures forall j :: OrderedMaps.Lookup(parameters, j) == if j == key then Some(value) else OrderedMaps.Lookup(old(parameters), j)
    {
      OrderedMaps.PutWellFormed(parameters, key, value);
      forall j
        ensures OrderedMaps.Lookup(OrderedMaps.Put(parameters, key, value), j) == if j == key then Some(value) else OrderedMaps.Lookup(parameters, j)
      {
        OrderedMaps.PutLookup(parameters, key, value, j);
      }
      parameters := OrderedMaps.Put(parameters, key, value);
    }

    /** has: array_key_exists, so a stored null counts, and a shallow get then finds the stored value. */
    predicate Has(key: string)
      reads this
      ensures Has(key) <==> OrderedMaps.Lookup(parameters, key).Some?
      ensures !Has(key) ==> GetSpec(parameters, key, Null, false) == Ok(Null)
    {
      key in OrderedMaps.Keys(parameters)
    }

    /** remove: only `key` goes. */
    method Remove(key: string)
      requires Valid()
      modifies this
      ensures Valid()
      ensures parameters == OrderedMaps.Unset(old(parameters), key)
      ensures forall j :: OrderedMaps.Lookup(parameters, j) == if j == key then None else OrderedMaps.Lookup(old(parameters), j)
    {
      forall j
        ensures OrderedMaps.Lookup(OrderedMaps.Unset(parameters, key), j) == if j == key then None else OrderedMaps.Lookup(parameters, j)
      {
        OrderedMaps.UnsetLookup(parameters, key, j);
      }
      OrderedMaps.UnsetWellFormed(parameters, key);
      parameters := OrderedMaps.Unset(parameters, key);
    }

    /** get, with its character loop over a deep path. */
    method Get(path: string, default: Value, deep: bool) returns (r: Result<Value, ParameterError>)
      ensures r == GetSpec(parameters, path, default, deep)
    {
      var open := IndexOfFrom(path, '[', 0);
      if !deep || open.None? {
        var v := OrderedMaps.Lookup(parameters, path);
        return Ok(if v.Some? then v.value else default);
      }
      var root := OrderedMaps.Lookup(parameters, path[..open.value]);
      if root.None? {
        return Ok(default);
      }
      var value := root.value;
      var currentKey: Option<string> := None;
      var i := open.value;
      while i < |path|
        invariant open.value <= i <= |path|
        invariant GetSpec(parameters, path, default, deep) == Descend(path[i..], i, currentKey, value, default)
        decreases |path| - i
      {
        var c := path[i];
        assert path[i..][0] == c && path[i..][1..] == path[i + 1..];
        if c == '[' {
          if currentKey.Some? {
            return Err(UnexpectedOpen(i));
          }
          currentKey := Some("");
        } else if c == ']' {
          if currentKey.None? {
            return Err(UnexpectedClose(i));
          }
          if !value.Array? || currentKey.value !in value.items {
            return Ok(default);
          }
          value := value.items[currentKey.value];
          currentKey := None;
        } else {
          if currentKey.None? {
            return Err(UnexpectedChar(c, i));
          }
          currentKey := Some(currentKey.value + [c]);
        }
        i := i + 1;
      }
      if currentKey.Some? {
        return Err(UnclosedKey);
      }
      return Ok(value);
    }

    /** getAlphabetic, getAlphabeticAndDigits and getDigits. */
    method GetFiltered(key: string, default: Value, deep: bool, cls: CharClass) returns (r: Result<string, ParameterError>)
      ensures var g := GetSpec(parameters, key, default, deep);
        r == if g.Err? then Err(g.error) else FilterValue(g.value, cls)
      ensures r.Ok? ==> forall i :: 0 <= i < |r.value| ==> InClass(r.value[i], cls)
    {
      var g := Get(key, default, deep);
      if g.Err? {
        return Err(g.error);
      }
      return FilterValue(g.value, cls);
    }
  }
}
