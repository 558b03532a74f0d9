/**
 * PHP arrays with string keys, as the framework uses them for route lists,
 * parameter bags and header maps: a sequence of key/value pairs in
 * insertion order. Assigning to an existing key keeps its position;
 * assigning to a new key appends it; array_merge assigns every pair of its
 * second argument in turn; unset deletes one key.
 */
module OrderedMaps {
  import opened Wrappers

  type OrderedMap<V> = seq<(string, V)>

  function Keys<V>(m: OrderedMap<V>): (ks: seq<string>)
    ensures |ks| == |m|
    ensures forall i :: 0 <= i < |m| ==> ks[i] == m[i].0
  {
    seq(|m|, i requires 0 <= i < |m| => m[i].0)
  }

  predicate Distinct(ks: seq<string>) {
    forall i, j :: 0 <= i < j < |ks| ==> ks[i] != ks[j]
  }

  /** The invariant of a PHP array: no key occurs twice. */
  predicate WellFormed<V>(m: OrderedMap<V>) {
    Distinct(Keys(m))
  }

  /** Position of the first occurrence of `k`. */
  function IndexOf(ks: seq<string>, k: string): (r: Option<nat>)
    ensures r.Some? ==> r.value < |ks| && ks[r.value] == k && k !in ks[..r.value]
    ensures r.None? <==> k !in ks
  {
    if |ks| == 0 then None
    else if ks[0] == k then Some(0)
    else match IndexOf(ks[1..], k)
      case None => None
      case Some(i) =>
        assert ks[..i + 1] == [ks[0]] + ks[1..][..i];
        Some(i + 1)
  }

  lemma IndexOfFirst(ks: seq<string>, k: string, i: nat)
    requires i < |ks| && ks[i] == k && k !in ks[..i]
    ensures IndexOf(ks, k) == Some(i)
  {
  }

  /** `$m[$k]` when `isset`, else null. */
  function Lookup<V>(m: OrderedMap<V>, k: string): (r: Option<V>)
    ensures r.Some? <==> k in Keys(m)
  {
    match IndexOf(Keys(m), k)
    case None => None
    case Some(i) => Some(m[i].1)
  }

  /** A value Lookup finds is stored under its key. */
  lemma LookupFound<V>(m: OrderedMap<V>, k: string)
    ensures Lookup(m, k).Some? ==> exists i :: 0 <= i < |m| && m[i] == (k, Lookup(m, k).value)
  {
    if Lookup(m, k).Some? {
      var i := IndexOf(Keys(m), k).value;
      assert m[i] == (k, Lookup(m, k).value);
    }
  }

  /** `$m[$k] = $v` */
  function Put<V>(m: OrderedMap<V>, k: string, v: V): OrderedMap<V> {
    match IndexOf(Keys(m), k)
    case Some(i) => m[i := (k, v)]
    case None => m + [(k, v)]
  }

  /** Assigning every pair of `xs` in order; array_merge(m, xs) for string keys. */
  function PutAll<V>(m: OrderedMap<V>, xs: OrderedMap<V>): OrderedMap<V>
    decreases |xs|
  {
    if |xs| == 0 then m
    else Put(PutAll(m, xs[..|xs| - 1]), xs[|xs| - 1].0, xs[|xs| - 1].1)
  }

  /** `unset($m[$k])` */
  function Unset<V>(m: OrderedMap<V>, k: string): (r: OrderedMap<V>)
    ensures forall i :: 0 <= i < |r| ==> r[i] in m && r[i].0 != k
  {
    if |m| == 0 then []
    else
      var rest := Unset(m[..|m| - 1], k);
      if m[|m| - 1].0 == k then rest else rest + [m[|m| - 1]]
  }

  /** The value of the last pair with key `k`. */
  function LastValue<V>(xs: OrderedMap<V>, k: string): (r: Option<V>)
    ensures r.Some? <==> k in Keys(xs)
  {
    if |xs| == 0 then None
    else if xs[|xs| - 1].0 == k then Some(xs[|xs| - 1].1)
    else
      assert Keys(xs) == Keys(xs[..|xs| - 1]) + [xs[|xs| - 1].0];
      LastValue(xs[..|xs| - 1], k)
  }

  /** `ks` followed by the keys of `more` that are not yet present, first occurrence first. */
  function AppendNew(ks: seq<string>, more: seq<string>): seq<string>
    decreases |more|
  {
    if |more| == 0 then ks
    else
      var t := AppendNew(ks, more[..|more| - 1]);
      if more[|more| - 1] in t then t else t + [more[|more| - 1]]
  }

  lemma {:induction false} AppendNewMembers(ks: seq<string>, more: seq<string>)
    decreases |more|
    ensures forall x :: x in AppendNew(ks, more) <==> x in ks || x in more
  {
    if |more| > 0 {
      AppendNewMembers(ks, more[..|more| - 1]);
      assert more == more[..|more| - 1] + [more[|more| - 1]];
    }
  }

  lemma {:induction false} AppendNewDistinct(ks: seq<string>, more: seq<string>)
    requires Distinct(ks)
    decreases |more|
    ensures Distinct(AppendNew(ks, more))
  {
    if |more| > 0 {
      AppendNewDistinct(ks, more[..|more| - 1]);
    }
  }

  /** Adding the de-duplicated keys adds the same keys in the same order. */
  lemma {:induction false} AppendNewOfDeduplicated(ks: seq<string>, more: seq<string>)
    decreases |more|
    ensures AppendNew(ks, AppendNew([], more)) == AppendNew(ks, more)
  {
    if |more| > 0 {
      var init := more[..|more| - 1];
      var x := more[|more| - 1];
      AppendNewOfDeduplicated(ks, init);
      AppendNewMembers([], init);
      AppendNewMembers(ks, init);
      var d := AppendNew([], init);
      if x !in d {
        assert (d + [x])[..|d|] == d;
      }
    }
  }

  lemma {:induction false} AppendNewConcat(ks: seq<string>, a: seq<string>, b: seq<string>)
    decreases |b|
    ensures AppendNew(ks, a + b) == AppendNew(AppendNew(ks, a), b)
  {
    if |b| == 0 {
      assert a + b == a;
    } else {
      AppendNewConcat(ks, a, b[..|b| - 1]);
      assert (a + b)[..|a + b| - 1] == a + b[..|b| - 1];
    }
  }

  lemma PutKeys<V>(m: OrderedMap<V>, k: string, v: V)
    ensures Keys(Put(m, k, v)) == AppendNew(Keys(m), [k])
  {
    assert [k][..0] == [];
  }

  lemma PutLookup<V>(m: OrderedMap<V>, k: string, v: V, j: string)
    ensures Lookup(Put(m, k, v), j) == if j == k then Some(v) else Lookup(m, j)
  {
    var r := Put(m, k, v);
    match IndexOf(Keys(m), k)
    case Some(i) =>
      assert Keys(r) == Keys(m);
    case None =>
      assert Keys(r) == Keys(m) + [k];
      if j != k && j in Keys(m) {
        var p := IndexOf(Keys(m), j).value;
        assert Keys(r)[..p] == Keys(m)[..p];
        IndexOfFirst(Keys(r), j, p);
      }
  }

  lemma {:induction false} PutAllKeys<V>(m: OrderedMap<V>, xs: OrderedMap<V>)
    decreases |xs|
    ensures Keys(PutAll(m, xs)) == AppendNew(Keys(m), Keys(xs))
  {
    if |xs| > 0 {
      var init := xs[..|xs| - 1];
      PutAllKeys(m, init);
      PutKeys(PutAll(m, init), xs[|xs| - 1].0, xs[|xs| - 1].1);
      AppendNewConcat(Keys(m), Keys(init), [xs[|xs| - 1].0]);
      assert Keys(xs) == Keys(init) + [xs[|xs| - 1].0];
    }
  }

  /** After array_merge, a key holds the last value `xs` gives it, or its old value. */
  lemma {:induction false} PutAllLookup<V>(m: OrderedMap<V>, xs: OrderedMap<V>, k: string)
    decreases |xs|
    ensures Lookup(PutAll(m, xs), k) == if k in Keys(xs) then LastValue(xs, k) else Lookup(m, k)
  {
    if |xs| > 0 {
      var init := xs[..|xs| - 1];
      PutAllLookup(m, init, k);
      PutLookup(PutAll(m, init), xs[|xs| - 1].0, xs[|xs| - 1].1, k);
      assert Keys(xs) == Keys(init) + [xs[|xs| - 1].0];
    }
  }

  /** In a well-formed map the only value of a key is its last one. */
  lemma {:induction false} LookupIsLastValue<V>(m: OrderedMap<V>, k: string)
    requires WellFormed(m)
    decreases |m|
    ensures Lookup(m, k) == LastValue(m, k)
  {
    if |m| > 0 {
      var init := m[..|m| - 1];
      assert Keys(m) == Keys(init) + [m[|m| - 1].0];
      LookupIsLastValue(init, k);
      if k in Keys(init) {
        var p := IndexOf(Keys(init), k).value;
        assert Keys(m)[..p] == Keys(init)[..p];
      }
    }
  }

  lemma {:induction false} LastValueConcat<V>(xs: OrderedMap<V>, ys: OrderedMap<V>, k: string)
    decreases |ys|
    ensures LastValue(xs + ys, k) == if k in Keys(ys) then LastValue(ys, k) else LastValue(xs, k)
  {
    if |ys| == 0 {
      assert xs + ys == xs;
    } else {
      var init := ys[..|ys| - 1];
      LastValueConcat(xs, init, k);
      assert (xs + ys)[..|xs + ys| - 1] == xs + init;
      assert Keys(ys) == Keys(init) + [ys[|ys| - 1].0];
    }
  }

  lemma PutWellFormed<V>(m: OrderedMap<V>, k: string, v: V)
    requires WellFormed(m)
    ensures WellFormed(Put(m, k, v))
  {
    PutKeys(m, k, v);
    AppendNewDistinct(Keys(m), [k]);
  }

  lemma {:induction false} UnsetKeys<V>(m: OrderedMap<V>, k: string)
    decreases |m|
    ensures forall x :: x in Keys(Unset(m, k)) <==> x in Keys(m) && x != k
  {
    if |m| > 0 {
      UnsetKeys(m[..|m| - 1], k);
      assert Keys(m) == Keys(m[..|m| - 1]) + [m[|m| - 1].0];
      var rest := Unset(m[..|m| - 1], k);
      assert Keys(rest + [m[|m| - 1]]) == Keys(rest) + [m[|m| - 1].0];
    }
  }

  lemma {:induction false} UnsetWellFormed<V>(m: OrderedMap<V>, k: string)
    requires WellFormed(m)
    decreases |m|
    ensures WellFormed(Unset(m, k))
  {
    if |m| > 0 {
      var init := m[..|m| - 1];
      assert Keys(m) == Keys(init) + [m[|m| - 1].0];
      UnsetWellFormed(init, k);
      UnsetKeys(init, k);
      var rest := Unset(init, k);
      assert Keys(rest + [m[|m| - 1]]) == Keys(rest) + [m[|m| - 1].0];
    }
  }

  lemma {:induction false} UnsetLastValue<V>(m: OrderedMap<V>, k: string, j: string)
    decreases |m|
    ensures LastValue(Unset(m, k), j) == if j == k then None else LastValue(m, j)
  {
    if |m| > 0 {
      var init := m[..|m| - 1];
      UnsetLastValue(init, k, j);
      UnsetKeys(m, k);
      var rest := Unset(init, k);
      if m[|m| - 1].0 != k {
        assert (rest + [m[|m| - 1]])[..|rest|] == rest;
      }
    }
  }

  /** unset removes exactly the one key. */
  lemma UnsetLookup<V>(m: OrderedMap<V>, k: string, j: string)
    requires WellFormed(m)
    ensures WellFormed(Unset(m, k))
    ensures Lookup(Unset(m, k), j) == if j == k then None else Lookup(m, j)
  {
    UnsetWellFormed(m, k);
    UnsetLastValue(m, k, j);
    LookupIsLastValue(m, j);
    LookupIsLastValue(Unset(m, k), j);
  }

  lemma {:induction false} UnsetConcat<V>(a: OrderedMap<V>, b: OrderedMap<V>, k: string)
    decreases |b|
    ensures Unset(a + b, k) == Unset(a, k) + Unset(b, k)
  {
    if |b| == 0 {
      assert a + b == a;
    } else {
      UnsetConcat(a, b[..|b| - 1], k);
      assert (a + b)[..|a + b| - 1] == a + b[..|b| - 1];
    }
  }

  lemma KeysConcat<V>(a: OrderedMap<V>, b: OrderedMap<V>)
    ensures Keys(a + b) == Keys(a) + Keys(b)
  {
  }

  lemma DistinctInsert(a: seq<string>, x: string, b: seq<string>)
    requires Distinct(a + b) && x !in a + b
    ensures Distinct(a + [x] + b)
  {
    var s := a + [x] + b;
    var ab := a + b;
    forall i, j | 0 <= i < j < |s|
      ensures s[i] != s[j]
    {
      var fi := if i < |a| then i else i - 1;
      var fj := if j < |a| then j else j - 1;
      if i != |a| && j != |a| {
        assert s[i] == ab[fi] && s[j] == ab[fj] && fi < fj;
      } else if i == |a| {
        assert s[j] == ab[fj];
      } else {
        assert s[i] == ab[fi];
      }
    }
  }

  /** A well-formed map holds the value of each of its pairs as its last value. */
  lemma PairLastValue<V>(m: OrderedMap<V>, k: string, v: V)
    requires WellFormed(m) && (k, v) in m
    ensures LastValue(m, k) == Some(v)
  {
    var i :| 0 <= i < |m| && m[i] == (k, v);
    IndexOfFirst(Keys(m), k, i);
    LookupIsLastValue(m, k);
  }

  /**
   * `m` is what assigning the pairs of `xs` in order to an empty array
   * gives: every key once, in order of first assignment, holding its last
   * value.
   */
  ghost predicate Merged<V>(m: OrderedMap<V>, xs: OrderedMap<V>) {
    && Keys(m) == AppendNew([], Keys(xs))
    && forall k :: Lookup(m, k) == LastValue(xs, k)
  }

  lemma MergedWellFormed<V>(m: OrderedMap<V>, xs: OrderedMap<V>)
    requires Merged(m, xs)
    ensures WellFormed(m)
  {
    AppendNewDistinct([], Keys(xs));
  }

  /** array_merge of two merged maps is the merge of both pair lists. */
  lemma MergedStep<V>(r: OrderedMap<V>, a: OrderedMap<V>, sub: OrderedMap<V>, b: OrderedMap<V>)
    requires Merged(r, a) && Merged(sub, b)
    ensures Merged(PutAll(r, sub), a + b)
  {
    PutAllKeys(r, sub);
    AppendNewOfDeduplicated(AppendNew([], Keys(a)), Keys(b));
    AppendNewConcat([], Keys(a), Keys(b));
    KeysConcat(a, b);
    MergedWellFormed(sub, b);
    AppendNewMembers([], Keys(b));
    forall k
      ensures Lookup(PutAll(r, sub), k) == LastValue(a + b, k)
    {
      PutAllLookup(r, sub, k);
      LookupIsLastValue(sub, k);
      LastValueConcat(a, b, k);
    }
  }

  /** Assigning one pair is array_merge with a one-pair array. */
  lemma MergedPut<V>(r: OrderedMap<V>, a: OrderedMap<V>, k: string, v: V)
    requires Merged(r, a)
    ensures Merged(Put(r, k, v), a + [(k, v)])
  {
    var one := [(k, v)];
    assert Keys(one) == [k];
    assert AppendNew([], [k]) == [k] by {
      assert [k][..0] == [];
    }
    assert Merged(one, one);
    MergedStep(r, a, one, one);
    assert PutAll(r, one) == Put(r, k, v) by {
      assert one[..0] == [];
    }
  }

  /** unset of every key of `ks` in turn. */
  function UnsetAll<V>(m: OrderedMap<V>, ks: seq<string>): OrderedMap<V>
    decreases |ks|
  {
    if |ks| == 0 then m else Unset(UnsetAll(m, ks[..|ks| - 1]), ks[|ks| - 1])
  }

  lemma {:induction false} UnsetAllKeys<V>(m: OrderedMap<V>, ks: seq<string>)
    requires WellFormed(m)
    decreases |ks|
    ensures WellFormed(UnsetAll(m, ks))
    ensures forall x :: x in Keys(UnsetAll(m, ks)) <==> x in Keys(m) && x !in ks
  {
    if |ks| > 0 {
      var init := ks[..|ks| - 1];
      UnsetAllKeys(m, init);
      UnsetWellFormed(UnsetAll(m, init), ks[|ks| - 1]);
      UnsetKeys(UnsetAll(m, init), ks[|ks| - 1]);
      assert ks == init + [ks[|ks| - 1]];
    }
  }

  lemma DistinctConcat(a: seq<string>, b: seq<string>)
    requires Distinct(a) && Distinct(b)
    requires forall x :: x in a ==> x !in b
    ensures Distinct(a + b)
  {
    var s := a + b;
    forall i, j | 0 <= i < j < |s|
      ensures s[i] != s[j]
    {
      if i < |a| && j >= |a| {
        assert s[i] in a && s[j] == b[j - |a|];
      } else if i >= |a| {
        assert s[i] == b[i - |a|] && s[j] == b[j - |a|];
      }
    }
  }

  /** The pairs of `m` whose key is not in `ks`, in order. */
  function Without<V>(m: OrderedMap<V>, ks: seq<string>): OrderedMap<V> {
    if |m| == 0 then []
    else
      var rest := Without(m[..|m| - 1], ks);
      if m[|m| - 1].0 in ks then rest else rest + [m[|m| - 1]]
  }

  lemma {:induction false} UnsetWithout<V>(m: OrderedMap<V>, ks: seq<string>, k: string)
    decreases |m|
    ensures Unset(Without(m, ks), k) == Without(m, ks + [k])
  {
    if |m| > 0 {
      var init := m[..|m| - 1];
      var last := m[|m| - 1];
      UnsetWithout(init, ks, k);
      var w := Without(init, ks);
      if last.0 !in ks {
        assert (w + [last])[..|w + [last]| - 1] == w;
      }
    }
  }

  /** Unsetting a list of keys one by one removes every pair whose key is listed. */
  lemma {:induction false} UnsetAllIsWithout<V>(m: OrderedMap<V>, ks: seq<string>)
    decreases |ks|
    ensures UnsetAll(m, ks) == Without(m, ks)
  {
    if |ks| == 0 {
      WithoutNothing(m);
    } else {
      var init := ks[..|ks| - 1];
      UnsetAllIsWithout(m, init);
      UnsetWithout(m, init, ks[|ks| - 1]);
      assert init + [ks[|ks| - 1]] == ks;
    }
  }

  lemma {:induction false} WithoutNothing<V>(m: OrderedMap<V>)
    decreases |m|
    ensures Without(m, []) == m
  {
    if |m| > 0 {
      WithoutNothing(m[..|m| - 1]);
      assert m[..|m| - 1] + [m[|m| - 1]] == m;
    }
  }

  /** array_diff_key: the keys left are those of `m` not listed, each with the value it had. */
  lemma {:induction false} WithoutKeys<V>(m: OrderedMap<V>, ks: seq<string>)
    decreases |m|
    ensures forall x :: x in Keys(Without(m, ks)) <==> x in Keys(m) && x !in ks
    ensures forall i :: 0 <= i < |Without(m, ks)| ==> Without(m, ks)[i] in m
  {
    if |m| > 0 {
      var init := m[..|m| - 1];
      WithoutKeys(init, ks);
      assert Keys(m) == Keys(init) + [m[|m| - 1].0];
      var rest := Without(init, ks);
      assert Keys(rest + [m[|m| - 1]]) == Keys(rest) + [m[|m| - 1].0];
      assert forall i :: 0 <= i < |rest| ==> rest[i] in init ==> rest[i] in m;
    }
  }

  /** Only which keys are listed matters, not their order or repetition. */
  lemma {:induction false} WithoutSameMembers<V>(m: OrderedMap<V>, ks: seq<string>, ns: seq<string>)
    requires forall x :: x in ks <==> x in ns
    decreases |m|
    ensures Without(m, ks) == Without(m, ns)
  {
    if |m| > 0 {
      WithoutSameMembers(m[..|m| - 1], ks, ns);
    }
  }
}
