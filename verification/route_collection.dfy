/**
 * RouteCollection (src/Ignite/Routing/RouteCollection.php): a named,
 * nestable, prefixable tree of routes. A collection's `routes` array holds
 * named routes and nested collections in insertion order; the tree is a
 * value here, and the class RouteCollection at the end of this module is
 * the top-most collection, whose methods update its fields in place.
 */
module RouteCollections {
  import opened Wrappers
  import opened Strings
  import opened Routes
  import opened OrderedMaps

  /** An entry of a `routes` array: a named route or a nested collection. */
  datatype Node =
    | Route(name: string, route: RouteDefinition)
    | Collection(prefix: string, entries: seq<Node>)

  datatype RouteError = InvalidName(name: string)

  /*** Flattening ***/

  /** The named routes of a tree, depth-first in insertion order. */
  function Flatten(es: seq<Node>): OrderedMap<RouteDefinition> {
    if |es| == 0 then [] else Flatten(es[..|es| - 1]) + FlattenNode(es[|es| - 1])
  }

  function FlattenNode(n: Node): OrderedMap<RouteDefinition> {
    match n
    case Route(name, d) => [(name, d)]
    case Collection(_, kids) => Flatten(kids)
  }

  function Names(es: seq<Node>): seq<string> {
    Keys(Flatten(es))
  }

  /** The invariant the collection maintains: a name is unique across the whole tree. */
  predicate UniqueNames(es: seq<Node>) {
    Distinct(Names(es))
  }

  lemma {:induction false} FlattenConcat(a: seq<Node>, b: seq<Node>)
    decreases |b|
    ensures Flatten(a + b) == Flatten(a) + Flatten(b)
  {
    if |b| == 0 {
      assert a + b == a;
    } else {
      FlattenConcat(a, b[..|b| - 1]);
      assert (a + b)[..|a + b| - 1] == a + b[..|b| - 1];
    }
  }

  /*** remove (lines 104-115) ***/

  /** unset($this->routes[$name]) on one level. */
  function DropOwn(es: seq<Node>, name: string): (r: seq<Node>)
    ensures forall i :: 0 <= i < |r| ==> r[i] in es && !(r[i].Route? && r[i].name == name)
  {
    if |es| == 0 then []
    else
      var rest := DropOwn(es[..|es| - 1], name);
      if es[|es| - 1].Route? && es[|es| - 1].name == name then rest else rest + [es[|es| - 1]]
  }

  /** remove: the name is unset here, then removed from every nested collection. */
  function RemoveName(es: seq<Node>, name: string): seq<Node> {
    var d := DropOwn(es, name);
    seq(|d|, i requires 0 <= i < |d| => RemoveNode(d[i], name))
  }

  /** The name removed from every nested collection of one level. */
  function RemoveEach(ns: seq<Node>, name: string): seq<Node> {
    seq(|ns|, i requires 0 <= i < |ns| => RemoveNode(ns[i], name))
  }

  function RemoveNode(n: Node, name: string): Node {
    match n
    case Route(_, _) => n
    case Collection(p, kids) => Collection(p, RemoveName(kids, name))
  }

  lemma RemoveNameSnoc(es: seq<Node>, name: string)
    requires |es| > 0
    ensures var last := es[|es| - 1];
      RemoveName(es, name) == RemoveName(es[..|es| - 1], name)
        + (if last.Route? && last.name == name then [] else [RemoveNode(last, name)])
  {
  }

  /** remove deletes every pair with that name and leaves the others, in order. */
  lemma {:induction false} RemoveNameFlatten(es: seq<Node>, name: string)
    decreases es
    ensures Flatten(RemoveName(es, name)) == Unset(Flatten(es), name)
  {
    if |es| > 0 {
      var init := es[..|es| - 1];
      var last := es[|es| - 1];
      RemoveNameSnoc(es, name);
      RemoveNameFlatten(init, name);
      var tail := if last.Route? && last.name == name then [] else [RemoveNode(last, name)];
      FlattenConcat(RemoveName(init, name), tail);
      UnsetConcat(Flatten(init), FlattenNode(last), name);
      match last
      case Route(n, d) =>
        assert Unset([(n, d)], name) == if n == name then [] else [(n, d)] by {
          assert [(n, d)][..0] == [];
        }
        assert Flatten([last]) == [(n, d)] by {
          assert [last][..0] == [];
        }
      case Collection(p, kids) =>
        RemoveNameFlatten(kids, name);
        assert Flatten([RemoveNode(last, name)]) == Flatten(RemoveName(kids, name)) by {
          assert [RemoveNode(last, name)][..0] == [];
        }
    }
  }

  /*** Nested collections and paths ***/

  /** The nested collections of one level, in insertion order. */
  function Kids(es: seq<Node>): (r: seq<Node>)
    ensures forall k :: 0 <= k < |r| ==> r[k] in es && r[k].Collection?
  {
    if |es| == 0 then []
    else Kids(es[..|es| - 1]) + (if es[|es| - 1].Collection? then [es[|es| - 1]] else [])
  }

  lemma {:induction false} KidsConcat(a: seq<Node>, b: seq<Node>)
    decreases |b|
    ensures Kids(a + b) == Kids(a) + Kids(b)
  {
    if |b| == 0 {
      assert a + b == a;
    } else {
      KidsConcat(a, b[..|b| - 1]);
      assert (a + b)[..|a + b| - 1] == a + b[..|b| - 1];
    }
  }

  /** remove keeps every nested collection, in place, with the name removed from it. */
  lemma KidsRemove(es: seq<Node>, name: string)
    ensures Kids(RemoveName(es, name)) == RemoveEach(Kids(es), name)
  {
    KidsDropOwn(es, name);
    assert RemoveName(es, name) == RemoveEach(DropOwn(es, name), name);
    KidsRemoveEach(DropOwn(es, name), name);
  }

  lemma {:induction false} KidsDropOwn(es: seq<Node>, name: string)
    ensures Kids(DropOwn(es, name)) == Kids(es)
  {
    if |es| > 0 {
      var init := es[..|es| - 1];
      var last := es[|es| - 1];
      KidsDropOwn(init, name);
      if !(last.Route? && last.name == name) {
        KidsConcat(DropOwn(init, name), [last]);
        assert [last][..0] == [];
      }
    }
  }

  lemma {:induction false} KidsRemoveEach(xs: seq<Node>, name: string)
    ensures Kids(RemoveEach(xs, name)) == RemoveEach(Kids(xs), name)
  {
    if |xs| > 0 {
      var init := xs[..|xs| - 1];
      var last := xs[|xs| - 1];
      KidsRemoveEach(init, name);
      assert RemoveEach(xs, name) == RemoveEach(init, name) + [RemoveNode(last, name)];
      KidsConcat(RemoveEach(init, name), [RemoveNode(last, name)]);
      assert [RemoveNode(last, name)][..0] == [];
      if last.Collection? {
        assert Kids(xs) == Kids(init) + [last];
        assert RemoveEach(Kids(xs), name) == RemoveEach(Kids(init), name) + [RemoveNode(last, name)];
      }
    }
  }

  /** The entries with the `k`-th nested collection replaced by `c`. */
  function ReplaceKid(es: seq<Node>, k: nat, c: Node): seq<Node>
    requires k < |Kids(es)|
  {
    var init := es[..|es| - 1];
    var last := es[|es| - 1];
    if last.Collection? && k == |Kids(init)| then init + [c] else ReplaceKid(init, k, c) + [last]
  }

  lemma {:induction false} KidsReplace(es: seq<Node>, k: nat, c: Node)
    requires k < |Kids(es)| && c.Collection?
    ensures Kids(ReplaceKid(es, k, c)) == Kids(es)[k := c]
  {
    var init := es[..|es| - 1];
    var last := es[|es| - 1];
    var tail := if last.Collection? then [last] else [];
    assert Kids(es) == Kids(init) + tail;
    if last.Collection? && k == |Kids(init)| {
      KidsConcat(init, [c]);
      assert [c][..0] == [];
      assert (Kids(init) + [last])[k := c] == Kids(init) + [c];
    } else {
      KidsReplace(init, k, c);
      KidsConcat(ReplaceKid(init, k, c), [last]);
      assert [last][..0] == [];
      assert Kids([last]) == tail;
      UpdateInPrefix(Kids(init), tail, k, c);
    }
  }

  /** Updating an index of the first part updates the concatenation there. */
  lemma UpdateInPrefix<T>(a: seq<T>, b: seq<T>, k: nat, x: T)
    requires k < |a|
    ensures (a + b)[k := x] == a[k := x] + b
  {
  }

  /**
   * Replacing the `k`-th nested collection replaces exactly its block of
   * the flattened routes.
   */
  lemma {:induction false} FlattenReplaceKid(es: seq<Node>, k: nat, c: Node)
    returns (pre: OrderedMap<RouteDefinition>, post: OrderedMap<RouteDefinition>)
    requires k < |Kids(es)| && c.Collection?
    ensures Flatten(es) == pre + Flatten(Kids(es)[k].entries) + post
    ensures Flatten(ReplaceKid(es, k, c)) == pre + Flatten(c.entries) + post
  {
    var init := es[..|es| - 1];
    var last := es[|es| - 1];
    if last.Collection? && k == |Kids(init)| {
      pre, post := Flatten(init), [];
      ReplaceLastKid(es, c);
    } else {
      var p0, p1 := FlattenReplaceKid(init, k, c);
      pre, post := p0, p1 + FlattenNode(last);
      ReplaceEarlierKid(es, k, c, p0, p1);
    }
  }

  lemma ReplaceLastKid(es: seq<Node>, c: Node)
    requires |es| > 0 && es[|es| - 1].Collection? && c.Collection?
    requires |Kids(es[..|es| - 1])| < |Kids(es)|
    ensures var init := es[..|es| - 1];
      && Flatten(es) == Flatten(init) + Flatten(Kids(es)[|Kids(init)|].entries) + []
      && Flatten(ReplaceKid(es, |Kids(init)|, c)) == Flatten(init) + Flatten(c.entries) + []
  {
    var init := es[..|es| - 1];
    assert Kids(es) == Kids(init) + [es[|es| - 1]];
    FlattenConcat(init, [c]);
    assert Flatten([c]) == FlattenNode(c) by {
      assert [c][..0] == [];
    }
  }

  lemma ReplaceEarlierKid(es: seq<Node>, k: nat, c: Node, p0: OrderedMap<RouteDefinition>, p1: OrderedMap<RouteDefinition>)
    requires |es| > 0 && k < |Kids(es[..|es| - 1])| && c.Collection?
    requires Flatten(es[..|es| - 1]) == p0 + Flatten(Kids(es[..|es| - 1])[k].entries) + p1
    requires Flatten(ReplaceKid(es[..|es| - 1], k, c)) == p0 + Flatten(c.entries) + p1
    ensures Flatten(es) == p0 + Flatten(Kids(es)[k].entries) + (p1 + FlattenNode(es[|es| - 1]))
    ensures Flatten(ReplaceKid(es, k, c)) == p0 + Flatten(c.entries) + (p1 + FlattenNode(es[|es| - 1]))
  {
    var init := es[..|es| - 1];
    var last := es[|es| - 1];
    var g := Flatten(Kids(es[..|es| - 1])[k].entries);
    var h := FlattenNode(last);
    assert Kids(es)[k] == Kids(init)[k];
    assert Flatten(es) == Flatten(init) + h;
    Regroup(p0, g, p1, h);
    assert ReplaceKid(es, k, c) == ReplaceKid(init, k, c) + [last];
    FlattenConcat(ReplaceKid(init, k, c), [last]);
    assert Flatten([last]) == h by {
      assert [last][..0] == [];
    }
    Regroup(p0, Flatten(c.entries), p1, h);
  }

  lemma Regroup<T>(a: seq<T>, b: seq<T>, c: seq<T>, d: seq<T>)
    ensures (a + b + c) + d == a + b + (c + d)
  {
  }

  /**
   * A path names a nested collection of the tree: each step is the index
   * of a nested collection among its parent's nested collections.
   */
  predicate PathOk(es: seq<Node>, path: seq<nat>)
    decreases |path|
  {
    path == [] || (path[0] < |Kids(es)| && PathOk(Kids(es)[path[0]].entries, path[1..]))
  }

  /** The entries of the collection a path names. */
  function Target(es: seq<Node>, path: seq<nat>): seq<Node>
    requires PathOk(es, path)
    decreases |path|
  {
    if path == [] then es else Target(Kids(es)[path[0]].entries, path[1..])
  }

  /** `$this->routes[] = $node` on the collection a path names. */
  function AppendAt(es: seq<Node>, path: seq<nat>, node: Node): seq<Node>
    requires PathOk(es, path)
    decreases |path|
  {
    if path == [] then es + [node]
    else
      var kid := Kids(es)[path[0]];
      ReplaceKid(es, path[0], Collection(kid.prefix, AppendAt(kid.entries, path[1..], node)))
  }

  /** Appending at a path appends to that collection and to no other. */
  lemma {:induction false} TargetAppendAt(es: seq<Node>, path: seq<nat>, node: Node)
    requires PathOk(es, path)
    decreases |path|
    ensures PathOk(AppendAt(es, path, node), path)
    ensures Target(AppendAt(es, path, node), path) == Target(es, path) + [node]
  {
    if path != [] {
      var kid := Kids(es)[path[0]];
      TargetAppendAt(kid.entries, path[1..], node);
      KidsReplace(es, path[0], Collection(kid.prefix, AppendAt(kid.entries, path[1..], node)));
    }
  }

  /** A route appended anywhere in the tree is inserted once into the flattened routes. */
  lemma {:induction false} FlattenAppendAt(es: seq<Node>, path: seq<nat>, n: string, d: RouteDefinition)
    returns (pre: OrderedMap<RouteDefinition>, post: OrderedMap<RouteDefinition>)
    requires PathOk(es, path)
    decreases |path|
    ensures Flatten(es) == pre + post
    ensures Flatten(AppendAt(es, path, Route(n, d))) == pre + [(n, d)] + post
  {
    if path == [] {
      pre, post := Flatten(es), [];
      FlattenConcat(es, [Route(n, d)]);
      assert [Route(n, d)][..0] == [];
    } else {
      var kid := Kids(es)[path[0]];
      var i0, i1 := FlattenAppendAt(kid.entries, path[1..], n, d);
      var c := Collection(kid.prefix, AppendAt(kid.entries, path[1..], Route(n, d)));
      var o0, o1 := FlattenReplaceKid(es, path[0], c);
      pre, post := o0 + i0, i1 + o1;
      InsertInBlock(o0, i0, i1, o1, (n, d));
    }
  }

  /** Inserting into a block of a sequence inserts into the whole. */
  lemma InsertInBlock<T>(o0: seq<T>, i0: seq<T>, i1: seq<T>, o1: seq<T>, x: T)
    ensures o0 + (i0 + i1) + o1 == (o0 + i0) + (i1 + o1)
    ensures o0 + (i0 + [x] + i1) + o1 == (o0 + i0) + [x] + (i1 + o1)
  {
  }

  lemma {:induction false} PathOkRemove(es: seq<Node>, path: seq<nat>, name: string)
    requires PathOk(es, path)
    decreases |path|
    ensures PathOk(RemoveName(es, name), path)
  {
    if path != [] {
      KidsRemove(es, name);
      PathOkRemove(Kids(es)[path[0]].entries, path[1..], name);
    }
  }

  /*** add (lines 48-65) ***/

  predicate NameChar(c: char) {
    'a' <= c <= 'z' || '0' <= c <= '9' || 'A' <= c <= 'Z' || c == '_' || c == '.'
  }

  /**
   * The name test of line 50 as PCRE evaluates it: `$` without the D
   * modifier also matches before one final newline.
   */
  predicate ValidNameAsWritten(name: string) {
    || (|name| > 0 && forall i :: 0 <= i < |name| ==> NameChar(name[i]))
    || (|name| > 1 && name[|name| - 1] == '\n' && forall i :: 0 <= i < |name| - 1 ==> NameChar(name[i]))
  }

  /** The name test as documented: one or more name characters and nothing else. */
  predicate ValidName(name: string) {
    |name| > 0 && forall i :: 0 <= i < |name| ==> NameChar(name[i])
  }

  /** The written test lets a name with a trailing newline through. */
  lemma NameWithTrailingNewlineAccepted()
    ensures ValidNameAsWritten("home\n") && !ValidName("home\n")
  {
    assert !NameChar("home\n"[4]);
  }

  /** The two tests differ exactly on names that end in one newline. */
  lemma ValidNameCorrected(name: string)
    ensures ValidName(name) ==> ValidNameAsWritten(name)
    ensures ValidNameAsWritten(name) && !ValidName(name) <==>
      |name| > 1 && name[|name| - 1] == '\n' && ValidName(name[..|name| - 1])
  {
    if |name| > 1 && name[|name| - 1] == '\n' {
      assert !NameChar(name[|name| - 1]);
    }
  }

  /** add on the collection `path` names: the name is removed from the whole tree, then appended there. */
  function AddSpec(es: seq<Node>, path: seq<nat>, name: string, d: RouteDefinition): seq<Node>
    requires PathOk(es, path)
  {
    PathOkRemove(es, path, name);
    AppendAt(RemoveName(es, name), path, Route(name, d))
  }

  /**
   * After add, the name occurs exactly once in the tree, bound to the new
   * route, as the last entry of the collection add was called on; every
   * other route is kept in order.
   */
  lemma AddSpecFacts(es: seq<Node>, path: seq<nat>, name: string, d: RouteDefinition)
    returns (pre: OrderedMap<RouteDefinition>, post: OrderedMap<RouteDefinition>)
    requires PathOk(es, path)
    ensures var r := AddSpec(es, path, name, d);
      && pre + post == Unset(Flatten(es), name)
      && Flatten(r) == pre + [(name, d)] + post
      && name !in Keys(pre + post)
      && PathOk(r, path)
      && PathOk(RemoveName(es, name), path)
      && Target(r, path) == Target(RemoveName(es, name), path) + [Route(name, d)]
  {
    PathOkRemove(es, path, name);
    var removed := RemoveName(es, name);
    pre, post := FlattenAppendAt(removed, path, name, d);
    RemoveNameFlatten(es, name);
    UnsetKeys(Flatten(es), name);
    TargetAppendAt(removed, path, Route(name, d));
  }

  /** add keeps names unique across the tree. */
  lemma AddKeepsUniqueNames(es: seq<Node>, path: seq<nat>, name: string, d: RouteDefinition)
    requires PathOk(es, path) && UniqueNames(es)
    ensures UniqueNames(AddSpec(es, path, name, d))
    ensures LastValue(Flatten(AddSpec(es, path, name, d)), name) == Some(d)
  {
    var pre, post := AddSpecFacts(es, path, name, d);
    UnsetWellFormed(Flatten(es), name);
    var r := Flatten(AddSpec(es, path, name, d));
    KeysConcat(pre, post);
    KeysConcat(pre + [(name, d)], post);
    KeysConcat(pre, [(name, d)]);
    assert Keys([(name, d)]) == [name];
    DistinctInsert(Keys(pre), name, Keys(post));
    LastValueConcat(pre + [(name, d)], post, name);
  }

  /*** get (lines 82-97) ***/

  /** get: nested collections, latest-added first, then this collection's own entry. */
  function GetRoute(es: seq<Node>, name: string): Option<RouteDefinition>
    decreases es, 1
  {
    var g := GetNested(es, name);
    if g.Some? then g else OwnRoute(es, name)
  }

  /** The loop over array_reverse($this->routes), which skips named routes. */
  function GetNested(es: seq<Node>, name: string): Option<RouteDefinition>
    decreases es, 0
  {
    if |es| == 0 then None
    else match es[|es| - 1]
      case Collection(_, kids) =>
        var g := GetRoute(kids, name);
        if g.Some? then g else GetNested(es[..|es| - 1], name)
      case Route(_, _) => GetNested(es[..|es| - 1], name)
  }

  /** `isset($this->routes[$name])` and its value. */
  function OwnRoute(es: seq<Node>, name: string): Option<RouteDefinition> {
    if |es| == 0 then None
    else if es[|es| - 1].Route? && es[|es| - 1].name == name then Some(es[|es| - 1].route)
    else OwnRoute(es[..|es| - 1], name)
  }

  /** get finds exactly the names of the tree, and what it returns is bound to that name there. */
  lemma {:induction false} GetRouteFacts(es: seq<Node>, name: string)
    decreases es, 1
    ensures GetRoute(es, name).Some? <==> name in Names(es)
    ensures GetRoute(es, name).Some? ==> (name, GetRoute(es, name).value) in Flatten(es)
  {
    GetNestedFacts(es, name);
  }

  lemma {:induction false} GetNestedFacts(es: seq<Node>, name: string)
    decreases es, 0
    ensures GetNested(es, name).Some? || OwnRoute(es, name).Some? <==> name in Names(es)
    ensures GetNested(es, name).Some? ==> (name, GetNested(es, name).value) in Flatten(es)
    ensures OwnRoute(es, name).Some? ==> (name, OwnRoute(es, name).value) in Flatten(es)
  {
    if |es| > 0 {
      var init := es[..|es| - 1];
      var last := es[|es| - 1];
      GetNestedFacts(init, name);
      KeysConcat(Flatten(init), FlattenNode(last));
      match last
      case Collection(_, kids) =>
        GetRouteFacts(kids, name);
      case Route(n, d) =>
        assert Keys([(n, d)]) == [n];
    }
  }

  /** In a tree whose names are unique, get returns the one route bound to the name. */
  lemma GetUnique(es: seq<Node>, name: string)
    ensures UniqueNames(es) ==> GetRoute(es, name) == LastValue(Flatten(es), name)
  {
    GetRouteFacts(es, name);
    if UniqueNames(es) && GetRoute(es, name).Some? {
      PairLastValue(Flatten(es), name, GetRoute(es, name).value);
    }
  }

  /** add is remove followed by an append at the path, and keeps names unique. */
  lemma AddStep(es: seq<Node>, path: seq<nat>, name: string, d: RouteDefinition)
    requires PathOk(es, path) && UniqueNames(es)
    ensures PathOk(RemoveName(es, name), path)
    ensures AppendAt(RemoveName(es, name), path, Route(name, d)) == AddSpec(es, path, name, d)
    ensures UniqueNames(AddSpec(es, path, name, d))
  {
    PathOkRemove(es, path, name);
    AddKeepsUniqueNames(es, path, name, d);
  }

  /** After add, get returns the route just added. */
  lemma GetAfterAdd(es: seq<Node>, path: seq<nat>, name: string, d: RouteDefinition)
    requires PathOk(es, path) && UniqueNames(es)
    ensures GetRoute(AddSpec(es, path, name, d), name) == Some(d)
  {
    AddKeepsUniqueNames(es, path, name, d);
    GetUnique(AddSpec(es, path, name, d), name);
  }

  /*** all (lines 67-80) ***/

  /** all: every named route of the tree once, first position kept, last value wins. */
  method AllOf(es: seq<Node>) returns (r: OrderedMap<RouteDefinition>)
    decreases es
    ensures Merged(r, Flatten(es))
  {
    r := [];
    for i := 0 to |es|
      invariant Merged(r, Flatten(es[..i]))
    {
      assert es[..i + 1][..i] == es[..i];
      match es[i]
      case Route(n, d) =>
        MergedPut(r, Flatten(es[..i]), n, d);
        r := Put(r, n, d);
      case Collection(_, kids) =>
        var sub := AllOf(kids);
        MergedStep(r, Flatten(es[..i]), sub, Flatten(kids));
        r := PutAll(r, sub);
    }
    assert es[..|es|] == es;
  }

  /** With unique names, all() and get agree on every name. */
  lemma AllAgreesWithGet(es: seq<Node>, r: OrderedMap<RouteDefinition>, name: string)
    requires UniqueNames(es) && Merged(r, Flatten(es))
    ensures Lookup(r, name) == GetRoute(es, name)
  {
    GetUnique(es, name);
  }

  /*** addPrefix (lines 130-152) ***/

  /**
   * The prefix addPrefix prepends: trailing slashes trimmed, nothing when
   * the rest is falsy, a leading slash added when it is missing.
   */
  function NormalizePrefix(p: string): string {
    var t := RTrim(p, {'/'});
    if !Truthy(t) then "" else if StartsWith(t, "/") then t else "/" + t
  }

  /**
   * Line 139 as written: `!strpos($prefix, '/', 0)` holds both when there
   * is no slash and when the first slash is at position 0.
   */
  function NormalizePrefixAsWritten(p: string): string {
    var t := RTrim(p, {'/'});
    if !Truthy(t) then ""
    else
      var pos := IndexOfFrom(t, '/', 0);
      if pos.None? || pos.value == 0 then "/" + t else t
  }

  /** A prefix that already starts with a slash gets a second one; one with an inner slash gets none. */
  lemma LeadingSlashDoubled()
    ensures NormalizePrefixAsWritten("/blog") == "//blog"
    ensures NormalizePrefix("/blog") == "/blog"
    ensures NormalizePrefixAsWritten("blog/posts") == "blog/posts"
    ensures NormalizePrefix("blog/posts") == "/blog/posts"
  {
    assert RTrim("/blog", {'/'}) == "/blog";
    assert RTrim("blog/posts", {'/'}) == "blog/posts";
    assert IndexOfFrom("blog/posts", '/', 0) == Some(4) by {
      assert IndexOfFrom("blog/posts", '/', 4) == Some(4);
      assert IndexOfFrom("blog/posts", '/', 3) == Some(4);
      assert IndexOfFrom("blog/posts", '/', 2) == Some(4);
      assert IndexOfFrom("blog/posts", '/', 1) == Some(4);
    }
  }

  /**
   * The normalised prefix is empty exactly when the trimmed input is
   * falsy; otherwise it is the trimmed input with one leading slash
   * ensured, and it does not end with a slash.
   */
  lemma NormalizePrefixShape(p: string)
    ensures var t := RTrim(p, {'/'});
      var q := NormalizePrefix(p);
      && (q == "" <==> !Truthy(t))
      && (q != "" ==> q[0] == '/' && q[|q| - 1] != '/')
      && (q != "" ==> if StartsWith(t, "/") then q == t else q == "/" + t)
  {
    var t := RTrim(p, {'/'});
    if Truthy(t) && !StartsWith(t, "/") {
      assert ("/" + t)[|"/" + t| - 1] == t[|t| - 1];
    }
  }

  /** A nested addPrefix normalises an already normalised prefix to itself. */
  lemma NormalizePrefixIdempotent(p: string)
    ensures NormalizePrefix(NormalizePrefix(p)) == NormalizePrefix(p)
  {
    var q := NormalizePrefix(p);
    NormalizePrefixShape(p);
    if q != "" {
      assert RTrim(q, {'/'}) == q;
      assert q[0] == '/' && q != "0";
      assert StartsWith(q, "/");
    }
  }

  /** setPattern(prefix . getPattern()) on a route; addPrefix on a nested collection. */
  function PrefixNode(n: Node, q: string): Node {
    match n
    case Route(name, d) => Route(name, d.WithPattern(q + d.pattern))
    case Collection(p, kids) => Collection(q + p, PrefixTree(kids, q))
  }

  /**
   * The loop of lines 145-151 for a normalised prefix `q`. A nested
   * collection normalises `q` again, which leaves it unchanged
   * (NormalizePrefixIdempotent), so it prepends the same `q`.
   */
  function PrefixTree(es: seq<Node>, q: string): seq<Node> {
    seq(|es|, i requires 0 <= i < |es| => PrefixNode(es[i], q))
  }

  /** Every route of the tree gets `q` prepended to its pattern; names and order are kept. */
  function PrefixPairs(xs: OrderedMap<RouteDefinition>, q: string): (r: OrderedMap<RouteDefinition>)
    ensures |r| == |xs|
  {
    seq(|xs|, i requires 0 <= i < |xs| => (xs[i].0, xs[i].1.WithPattern(q + xs[i].1.pattern)))
  }

  lemma {:induction false} PrefixTreeFlatten(es: seq<Node>, q: string)
    decreases es
    ensures Flatten(PrefixTree(es, q)) == PrefixPairs(Flatten(es), q)
  {
    if |es| > 0 {
      var init := es[..|es| - 1];
      var last := es[|es| - 1];
      PrefixTreeFlatten(init, q);
      assert PrefixTree(es, q)[..|es| - 1] == PrefixTree(init, q);
      assert PrefixPairs(Flatten(es), q) == PrefixPairs(Flatten(init), q) + PrefixPairs(FlattenNode(last), q);
      match last
      case Route(n, d) =>
      case Collection(p, kids) =>
        PrefixTreeFlatten(kids, q);
    }
  }

  /** Every nested collection gets `q` prepended to its prefix. */
  lemma {:induction false} PrefixTreeKids(es: seq<Node>, q: string)
    ensures |Kids(PrefixTree(es, q))| == |Kids(es)|
    ensures forall k :: 0 <= k < |Kids(es)| ==> Kids(PrefixTree(es, q))[k] == PrefixNode(Kids(es)[k], q)
  {
    if |es| > 0 {
      var init := es[..|es| - 1];
      PrefixTreeKids(init, q);
      assert PrefixTree(es, q) == PrefixTree(init, q) + [PrefixNode(es[|es| - 1], q)];
      KidsConcat(PrefixTree(init, q), [PrefixNode(es[|es| - 1], q)]);
      assert [PrefixNode(es[|es| - 1], q)][..0] == [];
    }
  }

  lemma {:induction false} PrefixTreeEmpty(es: seq<Node>)
    decreases es
    ensures PrefixTree(es, "") == es
  {
    forall i | 0 <= i < |es|
      ensures PrefixNode(es[i], "") == es[i]
    {
      match es[i]
      case Route(n, d) =>
        assert "" + d.pattern == d.pattern;
      case Collection(p, kids) =>
        PrefixTreeEmpty(kids);
        assert "" + p == p;
    }
  }

  /*** addCollection (lines 117-128) ***/

  /** remove of every name of `ns` in turn. */
  function RemoveNames(es: seq<Node>, ns: seq<string>): seq<Node>
    decreases |ns|
  {
    if |ns| == 0 then es else RemoveName(RemoveNames(es, ns[..|ns| - 1]), ns[|ns| - 1])
  }

  lemma {:induction false} RemoveNamesFlatten(es: seq<Node>, ns: seq<string>)
    decreases |ns|
    ensures Flatten(RemoveNames(es, ns)) == UnsetAll(Flatten(es), ns)
  {
    if |ns| > 0 {
      RemoveNamesFlatten(es, ns[..|ns| - 1]);
      RemoveNameFlatten(RemoveNames(es, ns[..|ns| - 1]), ns[|ns| - 1]);
    }
  }

  /**
   * Adding a collection after removing every name it holds keeps names
   * unique: this collection keeps its other routes in order and the
   * child's routes follow.
   */
  lemma AddCollectionKeepsUniqueNames(es: seq<Node>, ns: seq<string>, p: string, kids: seq<Node>)
    requires UniqueNames(es) && UniqueNames(kids)
    requires forall x :: x in Names(kids) ==> x in ns
    ensures var r := RemoveNames(es, ns) + [Collection(p, kids)];
      && Flatten(r) == UnsetAll(Flatten(es), ns) + Flatten(kids)
      && UniqueNames(r)
  {
    var rest := RemoveNames(es, ns);
    FlattenConcat(rest, [Collection(p, kids)]);
    assert [Collection(p, kids)][..0] == [];
    RemoveNamesFlatten(es, ns);
    UnsetAllKeys(Flatten(es), ns);
    KeysConcat(UnsetAll(Flatten(es), ns), Flatten(kids));
    DistinctConcat(Keys(UnsetAll(Flatten(es), ns)), Names(kids));
  }

  /** remove keeps names unique and takes away exactly the removed name. */
  lemma RemoveKeepsUniqueNames(es: seq<Node>, name: string)
    requires UniqueNames(es)
    ensures UniqueNames(RemoveName(es, name))
    ensures forall x :: x in Names(RemoveName(es, name)) <==> x in Names(es) && x != name
  {
    RemoveNameFlatten(es, name);
    UnsetWellFormed(Flatten(es), name);
    UnsetKeys(Flatten(es), name);
  }

  /** addPrefix changes no name. */
  lemma PrefixKeepsNames(es: seq<Node>, q: string)
    ensures Names(PrefixTree(es, q)) == Names(es)
  {
    PrefixTreeFlatten(es, q);
  }

  /**
   * The top-most collection. Routes and nested collections live in
   * `entries` as a value tree; a nested collection is addressed by the
   * path of indices among the collections of each level.
   */
  class RouteCollection {
    var prefix: string
    var entries: seq<Node>

    /** Every route name occurs once in the whole tree. */
    ghost predicate Valid()
      reads this
    {
      UniqueNames(entries)
    }

    constructor()
      ensures prefix == "" && entries == []
      ensures Valid()
    {
      prefix := "";
      entries := [];
    }

    /**
     * add, called on the collection at `path`: a name outside
     * [a-zA-Z0-9_.]+ is refused, otherwise the name is removed from the
     * whole tree and the route is appended where the call was made.
     */
    method Add(path: seq<nat>, name: string, d: RouteDefinition) returns (r: Result<(), RouteError>)
      requires Valid() && PathOk(entries, path)
      modifies this
      ensures Valid() && prefix == old(prefix)
      ensures r.Ok? <==> ValidName(name)
      ensures r.Err? ==> r.error == InvalidName(name) && entries == old(entries)
      ensures r.Ok? ==> entries == AddSpec(old(entries), path, name, d)
    {
      if !ValidName(name) {
        return Err(InvalidName(name));
      }
      AddStep(entries, path, name, d);
      Remove(name);
      entries := AppendAt(entries, path, Route(name, d));
      r := Ok(());
    }

    /** remove: drops this collection's own route of that name, then removes it in every nested collection. */
    method Remove(name: string)
      modifies this
      ensures prefix == old(prefix)
      ensures entries == RemoveName(old(entries), name)
      ensures old(Valid()) ==> Valid()
    {
      if Valid() {
        RemoveKeepsUniqueNames(entries, name);
      }
      var d := DropOwn(entries, name);
      entries := d;
      for i := 0 to |d|
        invariant prefix == old(prefix) && |entries| == |d|
        invariant forall j :: 0 <= j < i ==> entries[j] == RemoveNode(d[j], name)
        invariant forall j :: i <= j < |d| ==> entries[j] == d[j]
      {
        if d[i].Collection? {
          entries := entries[i := RemoveNode(d[i], name)];
        }
      }
    }

    /**
     * addPrefix: the prefix is normalised, prepended to this collection's
     * prefix, and prepended to every route pattern of the tree. Line 139
     * tests `strpos` for falsiness, which also holds when the slash is at
     * position 0; the intended test is whether the prefix starts with a
     * slash, and that is what is modelled here.
     */
    method AddPrefix(p: string)
      modifies this
      ensures prefix == NormalizePrefix(p) + old(prefix)
      ensures entries == PrefixTree(old(entries), NormalizePrefix(p))
      ensures old(Valid()) ==> Valid()
    {
      PrefixKeepsNames(entries, NormalizePrefix(p));
      var t := RTrim(p, {'/'});
      if !Truthy(t) {
        PrefixTreeEmpty(entries);
        assert "" + prefix == prefix;
        return;
      }
      if !StartsWith(t, "/") {
        t := "/" + t;
      }
      prefix := t + prefix;
      var d := entries;
      for i := 0 to |d|
        invariant prefix == t + old(prefix) && |entries| == |d|
        invariant forall j :: 0 <= j < i ==> entries[j] == PrefixNode(d[j], t)
        invariant forall j :: i <= j < |d| ==> entries[j] == d[j]
      {
        entries := entries[i := PrefixNode(d[i], t)];
      }
    }

    /** all: every route of the tree by name, in first-added order, the last value for each name. */
    method All() returns (r: OrderedMap<RouteDefinition>)
      ensures Merged(r, Flatten(entries))
      ensures Valid() ==> forall name :: Lookup(r, name) == Get(name)
    {
      r := AllOf(entries);
      if Valid() {
        forall name ensures Lookup(r, name) == Get(name) {
          AllAgreesWithGet(entries, r, name);
        }
      }
    }

    /** get: the route bound to the name anywhere in the tree, or nothing. */
    function Get(name: string): (r: Option<RouteDefinition>)
      reads this
      ensures r.Some? <==> name in Names(entries)
      ensures r.Some? ==> (name, r.value) in Flatten(entries)
      ensures Valid() ==> r == LastValue(Flatten(entries), name)
    {
      GetRouteFacts(entries, name);
      GetUnique(entries, name);
      GetRoute(entries, name)
    }

    /**
     * addCollection: the child is prefixed, every name it holds is removed
     * from this tree, and the child is appended as a nested collection.
     * The child is stored as a value, so later changes to the child
     * object do not reach this tree.
     */
    method AddCollection(child: RouteCollection, p: string)
      requires child != this
      requires Valid() && child.Valid()
      modifies this, child
      ensures child.prefix == NormalizePrefix(p) + old(child.prefix)
      ensures child.entries == PrefixTree(old(child.entries), NormalizePrefix(p))
      ensures prefix == old(prefix)
      ensures entries == RemoveNames(old(entries), AppendNew([], Names(old(child.entries))))
        + [Collection(child.prefix, child.entries)]
      ensures Valid() && child.Valid()
      ensures Flatten(entries) == UnsetAll(Flatten(old(entries)), Names(old(child.entries))) + Flatten(child.entries)
    {
      child.AddPrefix(p);
      PrefixKeepsNames(old(child.entries), NormalizePrefix(p));
      var all := child.All();
      var ks := Keys(all);
      assert ks == AppendNew([], Names(old(child.entries)));
      var base := entries;
      for i := 0 to |ks|
        invariant prefix == old(prefix)
        invariant entries == RemoveNames(base, ks[..i])
        invariant child.prefix == NormalizePrefix(p) + old(child.prefix)
        invariant child.entries == PrefixTree(old(child.entries), NormalizePrefix(p))
      {
        assert ks[..i + 1][..i] == ks[..i];
        Remove(ks[i]);
      }
      assert ks[..|ks|] == ks;
      AppendNewMembers([], Names(old(child.entries)));
      AddCollectionKeepsUniqueNames(base, ks, child.prefix, child.entries);
      entries := entries + [Collection(child.prefix, child.entries)];
      UnsetAllIsWithout(Flatten(base), ks);
      UnsetAllIsWithout(Flatten(base), Names(old(child.entries)));
      WithoutSameMembers(Flatten(base), ks, Names(old(child.entries)));
    }
  }
}
