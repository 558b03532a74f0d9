/**
 * The container's parameter collection
 * (src/Ignite/Container/ParameterCollection/ParameterCollection.php):
 * named values, where a string may refer to other parameters as `%name%`
 * and `%%` stands for a literal `%`. Resolution replaces references by the
 * values they name. A whole-string reference yields the value itself,
 * whatever its type. A reference inside a longer string is replaced by
 * text. A reference back to a parameter already being resolved yields a
 * marker string, so resolution always terminates.
 *
 * Values are PHP values: strings, integers, booleans, null, and arrays
 * with string keys. The patterns `^%([^%\s]+)%$` and `%%|%([^%\s]+)%` are
 * written out as the scanners WholeReference and Substitution.
 */
module Parameters {
  import opened Wrappers
  import opened Strings
  import opened OrderedMaps
  import ParameterErrors

  datatype Value =
    | Str(s: string)
    | Int(i: int)
    | Bool(b: bool)
    | Null
    | Arr(entries: OrderedMap<Value>)

  // Escaping

  /** str_replace('%', '%%', s) */
  function Double(s: string): (r: string)
    ensures |r| >= |s|
  {
    if |s| == 0 then ""
    else (if s[0] == '%' then "%%" else [s[0]]) + Double(s[1..])
  }

  /** str_replace('%%', '%', s): left to right, without overlaps. */
  function Halve(s: string): (r: string)
    ensures |r| <= |s|
  {
    if |s| == 0 then ""
    else if |s| >= 2 && s[0] == '%' && s[1] == '%' then "%" + Halve(s[2..])
    else [s[0]] + Halve(s[1..])
  }

  lemma {:induction false} HalveDouble(s: string)
    ensures Halve(Double(s)) == s
  {
    if |s| > 0 {
      HalveDouble(s[1..]);
      var d := Double(s[1..]);
      if s[0] == '%' {
        assert Double(s) == "%%" + d;
        assert ("%%" + d)[2..] == d;
      } else {
        assert Double(s) == [s[0]] + d;
        assert ([s[0]] + d)[1..] == d;
      }
      assert s == [s[0]] + s[1..];
    }
  }

  /** No null anywhere in the value, arrays of any depth included. */
  predicate NullFree(v: Value) {
    match v
    case Null => false
    case Arr(es) => forall i :: 0 <= i < |es| ==> NullFree(es[i].1)
    case _ => true
  }

  /** Every scalar in the value is a string: what an `array|string` return leaves. */
  predicate StringsOnly(v: Value) {
    match v
    case Str(_) => true
    case Arr(es) => forall i :: 0 <= i < |es| ==> StringsOnly(es[i].1)
    case _ => false
  }

  /**
   * What the `array|string` return type makes of a scalar that is neither,
   * outside strict mode: an int its decimal string, a bool "1" or "", and
   * null a TypeError (None).
   */
  function ReturnedScalar(v: Value): (r: Option<Value>)
    requires !v.Str? && !v.Arr?
    ensures r.Some? <==> !v.Null?
    ensures r.Some? ==> r.value.Str? && '%' !in r.value.s
  {
    match v
    case Int(i) => NumberHasNoPercent(i); Some(Str(IntToString(i)))
    case Bool(b) => Some(Str(if b then "1" else ""))
    case Null => None
  }

  lemma NumberHasNoPercent(i: int)
    ensures '%' !in IntToString(i)
  {
    var s := IntToString(i);
    var ds := NatToString(if i < 0 then -i else i);
    assert forall j :: 0 <= j < |s| ==> s[j] == '-' || s[j] in ds;
  }

  /**
   * escapeValue: every `%` of a string doubled; array values escaped in
   * turn under their own keys; any other value is returned, which the
   * `array|string` return type converts, or refuses when it is null.
   */
  function Escape(v: Value): (r: Option<Value>)
    ensures r.Some? <==> NullFree(v)
    ensures r.Some? ==> StringsOnly(r.value)
    ensures v.Str? ==> r == Some(Str(Double(v.s)))
    ensures v.Arr? && r.Some? ==> r.value.Arr? && Keys(r.value.entries) == Keys(v.entries)
  {
    match v
    case Str(s) => Some(Str(Double(s)))
    case Arr(es) =>
      var rs := seq(|es|, i requires 0 <= i < |es| => Escape(es[i].1));
      assert forall i :: 0 <= i < |es| ==> (rs[i].Some? <==> NullFree(es[i].1));
      if forall i :: 0 <= i < |es| ==> rs[i].Some? then
        Some(Arr(seq(|es|, i requires 0 <= i < |es| => (es[i].0, rs[i].value))))
      else None
    case _ => ReturnedScalar(v)
  }

  /** unescapeValue: every `%%` of a string halved; array values unescaped in turn; other values as escapeValue returns them. */
  function Unescape(v: Value): (r: Option<Value>)
    ensures r.Some? <==> NullFree(v)
    ensures r.Some? ==> StringsOnly(r.value)
    ensures v.Str? ==> r == Some(Str(Halve(v.s)))
    ensures v.Arr? && r.Some? ==> r.value.Arr? && Keys(r.value.entries) == Keys(v.entries)
  {
    match v
    case Str(s) => Some(Str(Halve(s)))
    case Arr(es) =>
      var rs := seq(|es|, i requires 0 <= i < |es| => Unescape(es[i].1));
      assert forall i :: 0 <= i < |es| ==> (rs[i].Some? <==> NullFree(es[i].1));
      if forall i :: 0 <= i < |es| ==> rs[i].Some? then
        Some(Arr(seq(|es|, i requires 0 <= i < |es| => (es[i].0, rs[i].value))))
      else None
    case _ => ReturnedScalar(v)
  }

  /** The value with every int and bool replaced by the string the return type makes of it. */
  function Coerced(v: Value): (r: Value)
    ensures NullFree(v) ==> StringsOnly(r)
  {
    match v
    case Str(_) => v
    case Null => v
    case Arr(es) => Arr(seq(|es|, i requires 0 <= i < |es| => (es[i].0, Coerced(es[i].1))))
    case _ => ReturnedScalar(v).value
  }

  /** A string without `%` is its own halving. */
  lemma {:induction false} HalveNoPercent(s: string)
    requires '%' !in s
    ensures Halve(s) == s
  {
    if |s| > 0 {
      assert '%' !in s[1..];
      HalveNoPercent(s[1..]);
    }
  }

  /**
   * Unescaping undoes escaping, through arrays of any depth, up to the
   * conversion of ints and bools to strings; a null anywhere makes both fail.
   */
  lemma {:induction false} UnescapeEscape(v: Value)
    decreases v
    ensures Escape(v).Some? <==> NullFree(v)
    ensures NullFree(v) ==> Unescape(Escape(v).value) == Some(Coerced(v))
  {
    match v
    case Str(s) =>
      HalveDouble(s);
    case Arr(es) =>
      if NullFree(v) {
        forall i | 0 <= i < |es|
          ensures Unescape(Escape(es[i].1).value) == Some(Coerced(es[i].1))
        {
          UnescapeEscape(es[i].1);
        }
        var e := Escape(v).value;
        assert |e.entries| == |es|;
        assert forall i :: 0 <= i < |es| ==> e.entries[i].1 == Escape(es[i].1).value;
        assert Unescape(e).value.entries == Coerced(v).entries;
      }
    case Null =>
    case _ =>
      HalveNoPercent(ReturnedScalar(v).value.s);
  }

  /** For a value of strings and arrays only, the round trip is exact. */
  lemma {:induction false} UnescapeEscapeStrings(v: Value)
    decreases v
    requires StringsOnly(v)
    ensures NullFree(v) && Coerced(v) == v
    ensures Unescape(Escape(v).value) == Some(v)
  {
    if v.Arr? {
      var es := v.entries;
      forall i | 0 <= i < |es|
        ensures NullFree(es[i].1) && Coerced(es[i].1) == es[i].1
      {
        UnescapeEscapeStrings(es[i].1);
      }
      assert Coerced(v).entries == es;
    }
    UnescapeEscape(v);
  }

  /** `80` comes back from escaping and unescaping as the string "80"; null does not come back. */
  lemma EscapeNumberExample()
    ensures Escape(Int(80)) == Some(Str("80"))
    ensures Unescape(Escape(Int(80)).value) == Some(Str("80"))
    ensures Escape(Null).None? && Unescape(Arr([("a", Null)])).None?
  {
    assert IntToString(80) == "80" by {
      assert NatToString(8) == "8";
    }
    HalveNoPercent("80");
    assert !NullFree(Arr([("a", Null)])) by {
      assert [("a", Null)][0].1 == Null;
    }
  }

  // Resolution

  /** A measure of a value: one per scalar and per array, plus one per array entry. */
  function Size(v: Value): (r: nat)
    ensures r >= 1
  {
    match v
    case Arr(es) => 1 + Sum(seq(|es|, i requires 0 <= i < |es| => 1 + Size(es[i].1)))
    case _ => 1
  }

  function Sum(xs: seq<nat>): nat {
    if |xs| == 0 then 0 else xs[0] + Sum(xs[1..])
  }

  function EntriesSize(es: OrderedMap<Value>): nat {
    Size(Arr(es)) - 1
  }

  lemma EntriesSizeStep(es: OrderedMap<Value>)
    requires |es| > 0
    ensures EntriesSize(es) == 1 + Size(es[0].1) + EntriesSize(es[1..])
  {
    var xs := seq(|es|, i requires 0 <= i < |es| => 1 + Size(es[i].1));
    assert xs[1..] == seq(|es| - 1, i requires 0 <= i < |es| - 1 => 1 + Size(es[1..][i].1));
  }

  /**
   * What resolution reads of the collection: the parameters, the
   * `resolved` flag, and whether a reference inside a longer string takes
   * the referenced value as final instead of resolving it again.
   */
  datatype Collection = Collection(params: OrderedMap<Value>, resolved: bool, embedsFinal: bool)

  /**
   * The collection as the code reads it: for a reference inside a longer
   * string it tests `$this->isResolved`, a property the class does not
   * have, which reads as null, so the value is always resolved again.
   */
  function AsWritten(params: OrderedMap<Value>, resolved: bool): Collection {
    Collection(params, resolved, false)
  }

  /** The collection as the whole-string branch reads it: resolved values are final. */
  function Intended(params: OrderedMap<Value>, resolved: bool): Collection {
    Collection(params, resolved, resolved)
  }

  /** The number of parameters not yet on the resolving path. */
  function Pending(c: Collection, resolving: set<string>): nat {
    |(set k | k in Keys(c.params)) - resolving|
  }

  lemma PendingShrinks(c: Collection, resolving: set<string>, k: string)
    requires k in Keys(c.params) && k !in resolving
    ensures Pending(c, resolving + {k}) < Pending(c, resolving)
  {
    var all := set x | x in Keys(c.params);
    var left := all - resolving;
    assert all - (resolving + {k}) == left - {k};
    assert k in left;
  }

  /** `\s` of PCRE: space, tab, line feed, vertical tab, form feed, carriage return. */
  const Spaces: set<char> := {' ', '\t', '\n', 11 as char, 12 as char, '\r'}

  predicate NameChar(ch: char) {
    ch != '%' && ch !in Spaces
  }

  /** A match of `[^%\s]+`. */
  predicate IsName(k: string) {
    |k| > 0 && forall i :: 0 <= i < |k| ==> NameChar(k[i])
  }

  /** The key when `s` matches `^%([^%\s]+)%$`; PCRE's `$` also matches before a final newline. */
  function WholeReference(s: string): (r: Option<string>)
    ensures r.Some? ==> IsName(r.value) && (s == "%" + r.value + "%" || s == "%" + r.value + "%\n")
  {
    var t := if |s| > 0 && s[|s| - 1] == '\n' then s[..|s| - 1] else s;
    if |t| >= 3 && t[0] == '%' && t[|t| - 1] == '%' && IsName(t[1..|t| - 1]) then
      assert s == t || s == t + "\n";
      assert t == "%" + t[1..|t| - 1] + "%";
      Some(t[1..|t| - 1])
    else
      None
  }

  /** Both forms `%k%` and `%k%` followed by a newline are whole references to k. */
  lemma WholeReferenceOf(s: string, k: string)
    requires IsName(k) && (s == "%" + k + "%" || s == "%" + k + "%\n")
    ensures WholeReference(s) == Some(k)
  {
    var t := "%" + k + "%";
    assert t[0] == '%' && t[|t| - 1] == '%' && t[1..|t| - 1] == k;
    if s == t {
      assert s[|s| - 1] != '\n';
    } else {
      assert s == t + "\n" && s[..|s| - 1] == t;
    }
  }

  /** A whole reference starts with `%` and a name character. */
  lemma ReferenceShape(s: string)
    ensures WholeReference(s).Some? ==> |s| >= 3 && s[0] == '%' && s[1] != '%'
  {
    if WholeReference(s).Some? {
      var k := WholeReference(s).value;
      assert s[1] == k[0];
    }
  }

  /** The end of the run of name characters starting at j. */
  function NameRun(s: string, j: nat): (r: nat)
    requires j <= |s|
    decreases |s| - j
    ensures j <= r <= |s|
    ensures forall x :: j <= x < r ==> NameChar(s[x])
    ensures r == |s| || !NameChar(s[r])
  {
    if j == |s| || !NameChar(s[j]) then j else NameRun(s, j + 1)
  }

  const StillResolving := "Still resolving string!"

  /** Returned, with its `%s` left unfilled, for a cyclic or non-scalar reference inside a string. */
  const NotComposable := "A string value must be composed of strings and/or numbers, but found parameters \"%s\" of type %s inside string value \"%s\"."

  datatype ResolveError =
    | NotFound(key: string)
      /** A resolved array key that is an array: PHP's "Illegal offset type". */
    | IllegalOffset
      /** A resolved value holding null: unescapeValue's `array|string` return refuses it with a TypeError. */
    | NullReturned

  /** The string PHP makes of a value: a callback result, an embedded number. */
  function AsString(v: Value): string {
    match v
    case Str(s) => s
    case Int(i) => IntToString(i)
    case Bool(b) => if b then "1" else ""
    case Null => ""
    case Arr(_) => "Array"
  }

  /** The array key PHP makes of a value; an array cannot be one. */
  function ArrayKey(v: Value): Option<string> {
    match v
    case Str(s) => Some(s)
    case Int(i) => Some(IntToString(i))
    case Bool(b) => Some(if b then "1" else "0")
    case Null => Some("")
    case Arr(_) => None
  }

  function Prepend(p: string, r: Result<string, ResolveError>): Result<string, ResolveError> {
    match r
    case Ok(t) => Ok(p + t)
    case Err(e) => Err(e)
  }

  /** resolveValue: arrays key by key and value by value, strings by resolveString, other values kept. */
  function Resolved(c: Collection, v: Value, resolving: set<string>): (r: Result<Value, ResolveError>)
    ensures !v.Str? && !v.Arr? ==> r == Ok(v)
    ensures v.Arr? && r.Ok? ==> r.value.Arr?
    decreases Pending(c, resolving), Size(v), 0
  {
    match v
    case Str(s) => ResolvedString(c, s, resolving)
    case Arr(es) =>
      (match ResolvedEntries(c, es, resolving, [])
       case Ok(args) => Ok(Arr(args))
       case Err(e) => Err(e))
    case _ => Ok(v)
  }

  /** The loop of resolveValue over an array: each key, then its value, assigned into `args`. */
  function ResolvedEntries(c: Collection, es: OrderedMap<Value>, resolving: set<string>, args: OrderedMap<Value>): Result<OrderedMap<Value>, ResolveError>
    decreases Pending(c, resolving), EntriesSize(es), 0
  {
    if |es| == 0 then Ok(args)
    else
      EntriesSizeStep(es);
      match ResolvedString(c, es[0].0, resolving)
      case Err(e) => Err(e)
      case Ok(key) =>
        match Resolved(c, es[0].1, resolving)
        case Err(e) => Err(e)
        case Ok(value) =>
          match ArrayKey(key)
          case None => Err(IllegalOffset)
          case Some(k) => ResolvedEntries(c, es[1..], resolving, Put(args, k, value))
  }

  /** resolveString */
  function ResolvedString(c: Collection, s: string, resolving: set<string>): (r: Result<Value, ResolveError>)
    ensures WholeReference(s).None? && r.Ok? ==> r.value.Str?
    decreases Pending(c, resolving), 0, |s| + 1
  {
    match WholeReference(s)
    case Some(k) =>
      if k in resolving then Ok(Str(StillResolving))
      else
        (match Lookup(c.params, k)
         case None => Err(NotFound(k))
         case Some(v) =>
           if c.resolved then Ok(v)
           else
             PendingShrinks(c, resolving, k);
             Resolved(c, v, resolving + {k}))
    case None =>
      match Substitution(c, s, 0, resolving)
      case Ok(r) => Ok(Str(r))
      case Err(e) => Err(e)
  }

  /** preg_replace_callback over `%%|%([^%\s]+)%` from position i: `%%` kept, references replaced, other text copied. */
  function Substitution(c: Collection, s: string, i: nat, resolving: set<string>): Result<string, ResolveError>
    requires i <= |s|
    decreases Pending(c, resolving), 0, |s| - i
  {
    if i == |s| then Ok("")
    else if s[i] != '%' then Prepend([s[i]], Substitution(c, s, i + 1, resolving))
    else if i + 1 < |s| && s[i + 1] == '%' then Prepend("%%", Substitution(c, s, i + 2, resolving))
    else
      var j := NameRun(s, i + 1);
      if i + 1 < j < |s| && s[j] == '%' then
        match Replacement(c, s[i + 1..j], resolving)
        case Err(e) => Err(e)
        case Ok(t) => Prepend(t, Substitution(c, s, j + 1, resolving))
      else
        Prepend("%", Substitution(c, s, i + 1, resolving))
  }

  /** The callback for a reference `%k%` inside a longer string. */
  function Replacement(c: Collection, k: string, resolving: set<string>): Result<string, ResolveError>
    decreases Pending(c, resolving), 0, 0
  {
    if k in resolving then Ok(NotComposable)
    else match Lookup(c.params, k)
      case None => Err(NotFound(k))
      case Some(v) =>
        if !v.Str? && !v.Int? then Ok(NotComposable)
        else if c.embedsFinal then Ok(AsString(v))
        else
          PendingShrinks(c, resolving, k);
          match ResolvedString(c, AsString(v), resolving + {k})
          case Ok(r) => Ok(AsString(r))
          case Err(e) => Err(e)
  }

  /** The collection resolve works with: the stored parameters, not yet resolved. */
  function Unresolved(params: OrderedMap<Value>): Collection {
    Collection(params, false, false)
  }

  /** How resolve resolves one stored value: against the stored parameters, nothing on the resolving path. */
  function ResolverOf(params: OrderedMap<Value>): Value -> Result<Value, ResolveError> {
    v => Resolved(Unresolved(params), v, {})
  }

  /** One value as resolve stores it: resolved by `resolve`, then unescaped. */
  function ResolvedEntry(resolve: Value -> Result<Value, ResolveError>, v: Value): (r: Result<Value, ResolveError>)
    ensures r.Ok? <==> resolve(v).Ok? && NullFree(resolve(v).value)
    ensures r.Ok? ==> StringsOnly(r.value)
    ensures resolve(v).Err? ==> r == Err(resolve(v).error)
    ensures resolve(v).Ok? && !NullFree(resolve(v).value) ==> r == Err(NullReturned)
  {
    match resolve(v)
    case Err(e) => Err(e)
    case Ok(u) =>
      match Unescape(u)
      case None => Err(NullReturned)
      case Some(w) => Ok(w)
  }

  /**
   * The parameters resolve builds from the entries `es`, each value
   * resolved by `resolve` and unescaped, or the first failure with the key
   * being resolved.
   */
  function ResolvedAll(resolve: Value -> Result<Value, ResolveError>, es: OrderedMap<Value>): Result<OrderedMap<Value>, (ResolveError, string)>
    decreases |es|
  {
    if |es| == 0 then Ok([])
    else
      match ResolvedAll(resolve, es[..|es| - 1])
      case Err(e) => Err(e)
      case Ok(acc) =>
        var (k, v) := es[|es| - 1];
        match ResolvedEntry(resolve, v)
        case Err(e) => Err((e, k))
        case Ok(u) => Ok(Put(acc, k, u))
  }

  /** What set leaves after assigning each pair in turn under its lower-cased name. */
  function SetAll(m: OrderedMap<Value>, ps: OrderedMap<Value>): OrderedMap<Value>
    decreases |ps|
  {
    if |ps| == 0 then m
    else Put(SetAll(m, ps[..|ps| - 1]), Lower(ps[|ps| - 1].0), ps[|ps| - 1].1)
  }

  /** What resolve throws: the tagged ParameterNotFoundException, or the TypeError of an illegal array key or a null value. */
  datatype Thrown =
    | NotFoundThrown(exception: ParameterErrors.ParameterNotFoundException)
    | TypeErrorThrown

  class ParameterCollection {
    var parameters: OrderedMap<Value>
    var resolved: bool

    /** The parameters are added one by one, as set stores them. */
    constructor(parameters: OrderedMap<Value>)
      ensures this.parameters == SetAll([], parameters) && !resolved
    {
      this.parameters := [];
      resolved := false;
      new;
      Add(parameters);
    }

    method Clear()
      modifies this`parameters
      ensures parameters == []
    {
      parameters := [];
    }

    method Add(ps: OrderedMap<Value>)
      modifies this`parameters
      ensures parameters == SetAll(old(parameters), ps)
    {
      for i := 0 to |ps|
        invariant parameters == SetAll(old(parameters), ps[..i])
      {
        assert ps[..i + 1][..i] == ps[..i];
        Set(ps[i].0, ps[i].1);
      }
      assert ps[..|ps|] == ps;
    }

    method All() returns (r: OrderedMap<Value>)
      ensures r == parameters
    {
      r := parameters;
    }

    /** get: the value under exactly this name, or a ParameterNotFoundException for it. */
    method Get(name: string) returns (r: Result<Value, ParameterErrors.ParameterNotFoundException>)
      ensures name in Keys(parameters) ==> r == Ok(Lookup(parameters, name).value)
      ensures name !in Keys(parameters) ==>
        && r.Err? && fresh(r.error) && r.error.Valid()
        && r.error.key == name && r.error.sourceId.None? && r.error.sourceKey.None?
    {
      var v := Lookup(parameters, name);
      if v.None? {
        var e := new ParameterErrors.ParameterNotFoundException(name, None, None);
        return Err(e);
      }
      return Ok(v.value);
    }

    method Remove(name: string)
      modifies this`parameters
      ensures parameters == Unset(old(parameters), name)
    {
      parameters := Unset(parameters, name);
    }

    /** set: stores under the lower-cased name. */
    method Set(name: string, value: Value)
      modifies this`parameters
      ensures parameters == Put(old(parameters), Lower(name), value)
    {
      parameters := Put(parameters, Lower(name), value);
    }

    /** has: looks the name up as given. */
    method Has(name: string) returns (b: bool)
      ensures b <==> name in Keys(parameters)
    {
      b := Lookup(parameters, name).Some?;
    }

    method IsResolved() returns (b: bool)
      ensures b == resolved
    {
      b := resolved;
    }

    /**
     * resolve: every value resolved and unescaped, in order; the first
     * missing reference is rethrown tagged with the key being resolved, and
     * an illegal array key or a null value is a TypeError.
     * A failure leaves the collection as it was; a second call does nothing.
     */
    method Resolve() returns (thrown: Option<Thrown>)
      modifies this`parameters, this`resolved
      ensures old(resolved) ==> thrown.None? && parameters == old(parameters) && resolved
      ensures !old(resolved) && ResolvedAll(ResolverOf(old(parameters)), old(parameters)).Ok? ==>
        thrown.None? && parameters == ResolvedAll(ResolverOf(old(parameters)), old(parameters)).value && resolved
      ensures !old(resolved) && ResolvedAll(ResolverOf(old(parameters)), old(parameters)).Err? ==>
        var (e, source) := ResolvedAll(ResolverOf(old(parameters)), old(parameters)).error;
        && parameters == old(parameters) && !resolved && thrown.Some?
        && (e.IllegalOffset? || e.NullReturned? ==> thrown.value == TypeErrorThrown)
        && (e.NotFound? ==>
              && thrown.value.NotFoundThrown?
              && fresh(thrown.value.exception) && thrown.value.exception.Valid()
              && thrown.value.exception.key == e.key
              && thrown.value.exception.sourceId.None?
              && thrown.value.exception.sourceKey == Some(source))
    {
      if resolved {
        return None;
      }
      var resolve := ResolverOf(parameters);
      var ps: OrderedMap<Value> := [];
      for i := 0 to |parameters|
        invariant ResolvedAll(resolve, parameters[..i]) == Ok(ps)
      {
        var key := parameters[i].0;
        var value := resolve(parameters[i].1);
        if value.Ok? {
          var unescaped := Unescape(value.value);
          value := if unescaped.Some? then Ok(unescaped.value) else Err(NullReturned);
        }
        assert parameters[..i + 1][..i] == parameters[..i];
        if value.Err? {
          FailureStays(resolve, parameters, i + 1);
          match value.error
          case NotFound(k) =>
            var exception := new ParameterErrors.ParameterNotFoundException(k, None, None);
            exception.SetSourceKey(Some(key));
            return Some(NotFoundThrown(exception));
          case IllegalOffset =>
            return Some(TypeErrorThrown);
          case NullReturned =>
            return Some(TypeErrorThrown);
        }
        ps := Put(ps, key, value.value);
      }
      assert parameters[..|parameters|] == parameters;
      parameters := ps;
      resolved := true;
      thrown := None;
    }
  }

  /** Once an entry fails, resolve's outcome is that failure, whatever follows. */
  lemma {:induction false} FailureStays(resolve: Value -> Result<Value, ResolveError>, es: OrderedMap<Value>, n: nat)
    requires n <= |es| && ResolvedAll(resolve, es[..n]).Err?
    decreases |es|
    ensures ResolvedAll(resolve, es) == ResolvedAll(resolve, es[..n])
  {
    if n < |es| {
      var front := es[..|es| - 1];
      assert front[..n] == es[..n];
      FailureStays(resolve, front, n);
    } else {
      assert es[..n] == es;
    }
  }

  /** resolve succeeds exactly when every value resolves to a value without null. */
  lemma {:induction false} ResolvedAllSucceeds(resolve: Value -> Result<Value, ResolveError>, es: OrderedMap<Value>)
    decreases |es|
    ensures ResolvedAll(resolve, es).Ok? <==>
      forall i :: 0 <= i < |es| ==> resolve(es[i].1).Ok? && NullFree(resolve(es[i].1).value)
  {
    if |es| > 0 {
      var front := es[..|es| - 1];
      assert forall i :: 0 <= i < |front| ==> front[i] == es[i];
      ResolvedAllSucceeds(resolve, front);
    }
  }

  /**
   * A successful resolve keeps every key in its place and holds each value
   * resolved and unescaped, which leaves strings and arrays only.
   */
  lemma {:induction false} ResolvedAllValues(resolve: Value -> Result<Value, ResolveError>, es: OrderedMap<Value>)
    requires WellFormed(es) && ResolvedAll(resolve, es).Ok?
    decreases |es|
    ensures var r := ResolvedAll(resolve, es).value;
      && |r| == |es|
      && forall i :: 0 <= i < |es| ==>
        && resolve(es[i].1).Ok?
        && Unescape(resolve(es[i].1).value).Some?
        && r[i] == (es[i].0, Unescape(resolve(es[i].1).value).value)
        && StringsOnly(r[i].1)
  {
    if |es| > 0 {
      var n := |es| - 1;
      var front := es[..n];
      LastKeyNew(es);
      ResolvedAllSucceeds(resolve, es);
      ResolvedAllSucceeds(resolve, front);
      ResolvedAllValues(resolve, front);
      var acc := ResolvedAll(resolve, front).value;
      var last := ResolvedEntry(resolve, es[n].1);
      assert Keys(acc) == Keys(front);
      PutNew(acc, es[n].0, last.value);
    }
  }

  lemma LastKeyNew(es: OrderedMap<Value>)
    requires WellFormed(es) && |es| > 0
    ensures WellFormed(es[..|es| - 1]) && es[|es| - 1].0 !in Keys(es[..|es| - 1])
  {
    assert Keys(es[..|es| - 1]) == Keys(es)[..|es| - 1];
  }

  lemma PutNew(m: OrderedMap<Value>, k: string, v: Value)
    requires k !in Keys(m)
    ensures Put(m, k, v) == m + [(k, v)]
  {
  }

  /**
   * A failed resolve names the key of the first entry that does not resolve,
   * with its error: the resolution's own, or NullReturned when the resolved
   * value holds null.
   */
  lemma {:induction false} ResolvedAllFailure(resolve: Value -> Result<Value, ResolveError>, es: OrderedMap<Value>)
    requires ResolvedAll(resolve, es).Err?
    decreases |es|
    ensures var (e, k) := ResolvedAll(resolve, es).error;
      exists i :: 0 <= i < |es| && es[i].0 == k
        && (if resolve(es[i].1).Ok? then e == NullReturned && !NullFree(resolve(es[i].1).value)
            else resolve(es[i].1) == Err(e))
        && forall j :: 0 <= j < i ==> resolve(es[j].1).Ok? && NullFree(resolve(es[j].1).value)
  {
    var n := |es| - 1;
    var front := es[..n];
    assert forall i :: 0 <= i < |front| ==> front[i] == es[i];
    if ResolvedAll(resolve, front).Err? {
      ResolvedAllFailure(resolve, front);
    } else {
      ResolvedAllSucceeds(resolve, front);
      assert ResolvedAll(resolve, es).error == (ResolvedEntry(resolve, es[n].1).error, es[n].0);
    }
  }

  // Properties of a single resolution

  /** set stores under the lower-cased name, which get finds; a name with capitals looks elsewhere. */
  lemma SetStoresLowerCase(m: OrderedMap<Value>, name: string, v: Value)
    ensures Lookup(Put(m, Lower(name), v), Lower(name)) == Some(v)
    ensures name != Lower(name) ==> Lookup(Put(m, Lower(name), v), name) == Lookup(m, name)
  {
    PutLookup(m, Lower(name), v, Lower(name));
    PutLookup(m, Lower(name), v, name);
  }

  /** Text before position n without `%` is copied as it is. */
  lemma {:induction false} SubstitutionCopies(c: Collection, s: string, i: nat, n: nat, resolving: set<string>)
    requires i <= n <= |s| && forall x :: i <= x < n ==> s[x] != '%'
    decreases n - i
    ensures Substitution(c, s, i, resolving) == Prepend(s[i..n], Substitution(c, s, n, resolving))
  {
    if i < n {
      SubstitutionCopies(c, s, i + 1, n, resolving);
      assert s[i..n] == [s[i]] + s[i + 1..n];
      PrependPrepend([s[i]], s[i + 1..n], Substitution(c, s, n, resolving));
    } else {
      PrependNothing(Substitution(c, s, n, resolving));
    }
  }

  lemma PrependPrepend(p: string, q: string, r: Result<string, ResolveError>)
    ensures Prepend(p, Prepend(q, r)) == Prepend(p + q, r)
  {
    if r.Ok? {
      assert p + (q + r.value) == (p + q) + r.value;
    }
  }

  lemma PrependNothing(r: Result<string, ResolveError>)
    ensures Prepend("", r) == r
  {
    if r.Ok? {
      assert "" + r.value == r.value;
    }
  }

  /** An escaped text from position i on is copied as it is: every `%%` is kept. */
  lemma {:induction false} SubstitutionKeepsEscapes(c: Collection, s: string, i: nat, t: string, resolving: set<string>)
    requires i <= |s| && s[i..] == Double(t)
    decreases |t|
    ensures Substitution(c, s, i, resolving) == Ok(Double(t))
  {
    if |t| > 0 {
      var d := Double(t[1..]);
      if t[0] == '%' {
        assert Double(t) == "%%" + d;
        assert s[i] == '%' && s[i + 1] == '%';
        assert s[i + 2..] == d;
        SubstitutionKeepsEscapes(c, s, i + 2, t[1..], resolving);
      } else {
        assert Double(t) == [t[0]] + d;
        assert s[i] == t[0];
        assert s[i + 1..] == d;
        SubstitutionKeepsEscapes(c, s, i + 1, t[1..], resolving);
      }
    }
  }

  lemma NoPercentNoReference(s: string)
    requires '%' !in s
    ensures WholeReference(s) == None
  {
    ReferenceShape(s);
    if |s| > 0 {
      assert s[0] in s;
    }
  }

  lemma NoLeadingPercentNoReference(s: string)
    requires |s| > 0 && s[0] != '%'
    ensures WholeReference(s) == None
  {
    ReferenceShape(s);
  }

  /** A string without `%` resolves to itself. */
  lemma PlainStringUnchanged(c: Collection, s: string, resolving: set<string>)
    requires '%' !in s
    ensures ResolvedString(c, s, resolving) == Ok(Str(s))
  {
    NoPercentNoReference(s);
    SubstitutionCopies(c, s, 0, |s|, resolving);
    assert s[0..|s|] == s && s + "" == s;
  }

  /** An escaped string resolves to itself, so resolve's unescaping gives back the original text. */
  lemma EscapedStringSurvives(c: Collection, t: string, resolving: set<string>)
    ensures ResolvedString(c, Double(t), resolving) == Ok(Str(Double(t)))
    ensures Escape(Str(t)) == Some(Str(Double(t)))
    ensures Unescape(Resolved(c, Str(Double(t)), resolving).value) == Some(Str(t))
  {
    var s := Double(t);
    ReferenceShape(s);
    if |s| > 0 && s[0] == '%' {
      DoubledPercentPairs(t);
    }
    assert WholeReference(s) == None;
    assert s[0..] == s;
    SubstitutionKeepsEscapes(c, s, 0, t, resolving);
    HalveDouble(t);
  }

  /** In an escaped text, a leading `%` is followed by another. */
  lemma DoubledPercentPairs(t: string)
    requires |Double(t)| > 0 && Double(t)[0] == '%'
    ensures |Double(t)| > 1 && Double(t)[1] == '%'
  {
    var first := t[0];
    assert Double(t) == (if first == '%' then "%%" else [first]) + Double(t[1..]);
  }

  /** A string that is one reference resolves to the referenced value: as stored once resolved, resolved in turn before. */
  lemma WholeReferenceValue(c: Collection, k: string, resolving: set<string>)
    requires IsName(k) && k !in resolving && k in Keys(c.params)
    ensures var v := Lookup(c.params, k).value;
      ResolvedString(c, "%" + k + "%", resolving)
        == if c.resolved then Ok(v) else Resolved(c, v, resolving + {k})
  {
    WholeReferenceOf("%" + k + "%", k);
  }

  /** A reference to a missing parameter fails with its name. */
  lemma MissingReference(c: Collection, k: string, resolving: set<string>)
    requires IsName(k) && k !in resolving && k !in Keys(c.params)
    ensures ResolvedString(c, "%" + k + "%", resolving) == Err(NotFound(k))
    ensures ResolvedString(c, "%" + k + "%\n", resolving) == Err(NotFound(k))
  {
    WholeReferenceOf("%" + k + "%", k);
    WholeReferenceOf("%" + k + "%\n", k);
  }

  /** A parameter that is a reference to itself resolves to the marker instead of looping. */
  lemma SelfReferenceTerminates(params: OrderedMap<Value>, k: string)
    requires IsName(k) && Lookup(params, k) == Some(Str("%" + k + "%"))
    ensures ResolvedString(Unresolved(params), "%" + k + "%", {}) == Ok(Str(StillResolving))
  {
    WholeReferenceOf("%" + k + "%", k);
    assert ResolvedString(Unresolved(params), "%" + k + "%", {k}) == Ok(Str(StillResolving));
    assert k in Keys(params);
    PendingShrinks(Unresolved(params), {}, k);
  }

  /** A name between two `%` is the run NameRun finds. */
  lemma NameRunOfReference(s: string, i: nat, k: string)
    requires IsName(k) && i + |k| + 2 <= |s| && s[i..i + |k| + 2] == "%" + k + "%"
    ensures NameRun(s, i + 1) == i + 1 + |k| && s[i + 1..i + 1 + |k|] == k
  {
    var e := i + 1 + |k|;
    assert forall x :: i + 1 <= x < e ==> s[x] == k[x - i - 1];
    assert s[e] == '%';
    NameRunStops(s, i + 1, e);
  }

  lemma {:induction false} NameRunStops(s: string, j: nat, e: nat)
    requires j <= e < |s| && !NameChar(s[e]) && forall x :: j <= x < e ==> NameChar(s[x])
    decreases e - j
    ensures NameRun(s, j) == e
  {
    if j < e {
      NameRunStops(s, j + 1, e);
    }
  }

  /** At a reference, the callback's failure is the outcome; otherwise its text comes before the rest. */
  lemma ReferenceAt(c: Collection, s: string, i: nat, k: string, resolving: set<string>)
    requires IsName(k) && i + |k| + 2 <= |s| && s[i..i + |k| + 2] == "%" + k + "%"
    ensures Substitution(c, s, i, resolving) ==
      match Replacement(c, k, resolving)
      case Err(e) => Err(e)
      case Ok(t) => Prepend(t, Substitution(c, s, i + |k| + 2, resolving))
  {
    NameRunOfReference(s, i, k);
    assert s[i] == '%';
    assert s[i + 1] == k[0];
  }

  /** In a text that starts without `%` and has one reference between `%`-free parts, the reference is replaced. */
  lemma ReferenceInText(c: Collection, s: string, n: nat, k: string, resolving: set<string>, t: string)
    requires IsName(k) && 0 < n && n + |k| + 2 <= |s| && s[n..n + |k| + 2] == "%" + k + "%"
    requires forall x :: 0 <= x < n ==> s[x] != '%'
    requires forall x :: n + |k| + 2 <= x < |s| ==> s[x] != '%'
    requires Replacement(c, k, resolving) == Ok(t)
    ensures ResolvedString(c, s, resolving) == Ok(Str(s[..n] + t + s[n + |k| + 2..]))
  {
    var e := n + |k| + 2;
    NoLeadingPercentNoReference(s);
    ReferenceAt(c, s, n, k, resolving);
    SubstitutionCopies(c, s, 0, n, resolving);
    SubstitutionCopies(c, s, e, |s|, resolving);
    PrependNothing(Ok(s[e..|s|]));
    assert s[0..n] == s[..n] && s[e..|s|] == s[e..];
    assert s[e..] + "" == s[e..];
    assert s[..n] + (t + s[e..]) == s[..n] + t + s[e..];
  }

  /** A reference inside a longer string is replaced by what the callback returns for it. */
  lemma ReferenceReplaced(c: Collection, pre: string, k: string, post: string, resolving: set<string>, t: string)
    requires |pre| > 0 && '%' !in pre && '%' !in post && IsName(k)
    requires Replacement(c, k, resolving) == Ok(t)
    ensures ResolvedString(c, pre + "%" + k + "%" + post, resolving) == Ok(Str(pre + t + post))
  {
    var s := pre + "%" + k + "%" + post;
    var n := |pre|;
    var e := n + |k| + 2;
    assert s[..n] == pre && s[n..e] == "%" + k + "%" && s[e..] == post;
    assert forall x :: 0 <= x < n ==> s[x] == pre[x];
    assert forall x :: e <= x < |s| ==> s[x] == post[x - e];
    ReferenceInText(c, s, n, k, resolving, t);
  }

  /** Inside a longer string, a reference to a `%`-free string is replaced by that string. */
  lemma EmbeddedReference(c: Collection, pre: string, k: string, post: string, resolving: set<string>, v: string)
    requires |pre| > 0 && '%' !in pre && '%' !in post && IsName(k) && k !in resolving
    requires Lookup(c.params, k) == Some(Str(v)) && '%' !in v
    ensures ResolvedString(c, pre + "%" + k + "%" + post, resolving) == Ok(Str(pre + v + post))
  {
    PlainStringUnchanged(c, v, resolving + {k});
    ReferenceReplaced(c, pre, k, post, resolving, v);
  }

  /** Inside a longer string, a reference to a number is replaced by its decimal digits. */
  lemma EmbeddedNumber(c: Collection, pre: string, k: string, post: string, resolving: set<string>, n: int)
    requires |pre| > 0 && '%' !in pre && '%' !in post && IsName(k) && k !in resolving
    requires Lookup(c.params, k) == Some(Int(n))
    ensures ResolvedString(c, pre + "%" + k + "%" + post, resolving) == Ok(Str(pre + IntToString(n) + post))
  {
    IntStringDigits(n);
    PlainStringUnchanged(c, IntToString(n), resolving + {k});
    ReferenceReplaced(c, pre, k, post, resolving, IntToString(n));
  }

  lemma IntStringDigits(n: int)
    ensures '%' !in IntToString(n)
  {
    var s := IntToString(n);
    if n < 0 {
      var digits := NatToString(-n);
      assert s == "-" + digits;
      forall x | 0 <= x < |s|
        ensures s[x] != '%'
      {
        if x > 0 {
          assert s[x] == digits[x - 1];
        }
      }
    }
  }

  /** Inside a longer string, a reference back into the resolving path becomes the marker text. */
  lemma EmbeddedCycleMarked(c: Collection, pre: string, k: string, post: string, resolving: set<string>)
    requires |pre| > 0 && '%' !in pre && '%' !in post && IsName(k) && k in resolving
    ensures ResolvedString(c, pre + "%" + k + "%" + post, resolving) == Ok(Str(pre + NotComposable + post))
  {
    ReferenceReplaced(c, pre, k, post, resolving, NotComposable);
  }

  /** Once resolved, an embedded reference takes the stored text as it is, `%` included. */
  lemma EmbeddedFinalOnceResolved(params: OrderedMap<Value>, pre: string, k: string, post: string, resolving: set<string>, v: string)
    requires |pre| > 0 && '%' !in pre && '%' !in post && IsName(k) && k !in resolving
    requires Lookup(params, k) == Some(Str(v))
    ensures ResolvedString(Intended(params, true), pre + "%" + k + "%" + post, resolving) == Ok(Str(pre + v + post))
  {
    ReferenceReplaced(Intended(params, true), pre, k, post, resolving, v);
  }

  /**
   * As written, a resolved value that holds a reference once more (an
   * escaped `%%x%%` unescaped to `%x%`) is resolved again when embedded,
   * and fails on the missing `x`.
   */
  lemma EmbeddedResolvedAgainAsWritten()
    ensures var params := [("y", Str("%x%"))];
      && ResolvedString(AsWritten(params, true), "a-%y%", {}) == Err(NotFound("x"))
      && ResolvedString(Intended(params, true), "a-%y%", {}) == Ok(Str("a-%x%"))
  {
    var params := [("y", Str("%x%"))];
    assert IsName("y") && IsName("x");
    assert Lookup(params, "y") == Some(Str("%x%"));
    assert Lookup(params, "x") == None;
    assert Keys(params) == ["y"];
    MissingReference(AsWritten(params, true), "x", {"y"});
    assert "%" + "x" + "%" == "%x%";
    assert ResolvedString(AsWritten(params, true), "%x%", {"y"}) == Err(NotFound("x"));
    assert AsString(Str("%x%")) == "%x%" && {} + {"y"} == {"y"};
    assert Replacement(AsWritten(params, true), "y", {}) == Err(NotFound("x"));
    var s := "a-%y%";
    assert s == "a-" + "%" + "y" + "%" + "";
    assert "a-" + "%x%" + "" == "a-%x%";
    ReferenceReplaced(Intended(params, true), "a-", "y", "", {}, "%x%");
    var c := AsWritten(params, true);
    NoLeadingPercentNoReference(s);
    assert s[2..5] == "%" + "y" + "%";
    ReferenceAt(c, s, 2, "y", {});
  }

  /** resolve itself never sees a resolved collection, so the two readings agree there. */
  lemma ResolveUnaffected(params: OrderedMap<Value>)
    ensures Unresolved(params) == AsWritten(params, false) == Intended(params, false)
  {
  }
}
