/**
 * UrlMatcher (src/Ignite/Routing/Matcher/UrlMatcher.php): finds the first
 * route of the tree, depth-first in insertion order, whose compiled regex
 * accepts the path and whose `_method` requirement accepts the request
 * method. `Walk` states the scan as a function; the class's methods follow
 * the loops of the source and are proved against it.
 *
 * Deviations from the code as written, each the evident intent:
 *  - line 67 iterates a RouteCollection with foreach, which the class does
 *    not support; the entries are visited in insertion order, as
 *    getIterator (RouteCollection.php:43-46) would;
 *  - line 85 passes `getStaticPrefix() !== 0` as the needle of strpos; the
 *    intended test is whether the path starts with the static prefix
 *    (StaticPrefixSkips, StaticPrefixSkipsAsWritten);
 *  - line 102 adds the route's methods to `allow` and skips the route when
 *    the request method IS accepted; the intended test is `!in_array`;
 *  - line 110 ends matchCollection without a return value; the intended
 *    result is "no match".
 */
module UrlMatching {
  import opened Wrappers
  import opened Strings
  import opened Routes
  import opened CompiledRoutes
  import RouteCompiler
  import opened RouteRegex
  import opened RouteCollections
  import OrderedMaps
  import opened UrlEncoding
  import opened MethodNotAllowedErrors
  import opened RoutingContext

  type Parameters = map<string, string>

  /** A key of the array preg_match fills: a group number or a group name. */
  datatype GroupKey = Index(n: nat) | Name(name: string)

  datatype MatchError =
    | CompileFailed(error: RouteCompiler.CompileError)
    | NotAllowed(exception: MethodNotAllowed)
    | ResourceNotFound

  /**
   * The `$matches` array of preg_match: the whole match under 0, then each
   * named group under its name and its number.
   */
  function MatchesArray(path: string, caps: Captures): seq<(GroupKey, string)> {
    [(Index(0), path)] + GroupEntries(caps)
  }

  function GroupEntries(caps: Captures): seq<(GroupKey, string)> {
    if |caps| == 0 then []
    else
      var last := caps[|caps| - 1];
      GroupEntries(caps[..|caps| - 1]) + [(Name(last.0), last.1), (Index(|caps|), last.1)]
  }

  /** The names of the captures. */
  function CaptureNames(caps: Captures): set<string> {
    set i | 0 <= i < |caps| :: caps[i].0
  }

  /** The names that occur as keys. */
  function NamedKeys(params: seq<(GroupKey, string)>): set<string> {
    set i | 0 <= i < |params| && params[i].0.Name? :: params[i].0.name
  }

  /** The value of the last entry named `k`. */
  function LastNamed(params: seq<(GroupKey, string)>, k: string): string
    requires k in NamedKeys(params)
  {
    var last := params[|params| - 1];
    if last.0 == Name(k) then last.1
    else
      assert k in NamedKeys(params[..|params| - 1]) by {
        var i :| 0 <= i < |params| && params[i].0.Name? && params[i].0.name == k;
        assert params[..|params| - 1][i] == params[i];
      }
      LastNamed(params[..|params| - 1], k)
  }

  /**
   * mergeDefaults: the defaults, overridden by every named group with its
   * value raw-URL-decoded; numbered groups are ignored.
   */
  function MergeDefaultsSpec(params: seq<(GroupKey, string)>, defaults: Parameters): (r: Parameters)
    ensures forall k :: k in r <==> k in defaults || k in NamedKeys(params)
    ensures forall k :: k in r && k !in NamedKeys(params) ==> r[k] == defaults[k]
    ensures forall k :: k in NamedKeys(params) ==> r[k] == RawUrlDecode(LastNamed(params, k))
  {
    if |params| == 0 then defaults
    else
      var init := params[..|params| - 1];
      var last := params[|params| - 1];
      assert NamedKeys(params) == NamedKeys(init) + (if last.0.Name? then {last.0.name} else {}) by {
        assert forall i :: 0 <= i < |init| ==> init[i] == params[i];
      }
      var m := MergeDefaultsSpec(init, defaults);
      if last.0.Name? then m[last.0.name := RawUrlDecode(last.1)] else m
  }

  /** What one route does with the path: nothing, a method rejection, or a match. */
  datatype Verdict = Skip | Reject(methods: seq<string>) | Accept(parameters: Parameters)

  /** HEAD is checked as GET (section 9.3.2 of RFC 9110). */
  function EffectiveMethod(m: string): string {
    if m == "HEAD" then "GET" else m
  }

  /** The methods a truthy `_method` requirement allows: upper-cased and split on `|`. */
  function AllowedMethods(d: RouteDefinition): Option<seq<string>> {
    var m := d.Requirement("_method");
    if m.Some? && Truthy(m.value) then Some(Split(Upper(m.value), '|')) else None
  }

  /** The static-prefix pre-check as intended: skip when the path does not start with the prefix. */
  predicate StaticPrefixSkips(path: string, staticPrefix: string) {
    staticPrefix != "" && !StartsWith(path, staticPrefix)
  }

  /**
   * Line 85 as written: the needle `getStaticPrefix() !== 0` is `true`,
   * which strpos reads as "1", so the route is skipped whenever the path
   * holds a "1" and its first "1" is not its first character.
   */
  predicate StaticPrefixSkipsAsWritten(path: string, staticPrefix: string) {
    var pos := IndexOfFrom(path, '1', 0);
    staticPrefix != "" && pos.Some? && pos.value != 0
  }

  /** The loop body of matchCollection for one route (lines 82-109). */
  function RouteVerdict(name: string, d: RouteDefinition, path: string, requestMethod: string, req: Requirement): Result<Verdict, RouteCompiler.CompileError> {
    var c :- RouteCompiler.CompileSpec(d);
    if StaticPrefixSkips(path, c.staticPrefix) then Ok(Skip)
    else
      match RegexMatch(c, req, path)
      case None => Ok(Skip)
      case Some(caps) =>
        var allowed := AllowedMethods(d);
        if allowed.Some? && !InArray(EffectiveMethod(requestMethod), allowed.value) then Ok(Reject(allowed.value))
        else Ok(Accept(MergeDefaultsSpec(MatchesArray(path, caps), d.defaults)["_route" := name]))
  }

  /** The first match found, and `allow` as the scan left it. */
  datatype Outcome = Outcome(found: Option<Parameters>, allow: seq<string>)

  /**
   * matchCollection's loop over `es` with the path already decoded for
   * this level: the first accepting entry ends the scan.
   */
  function Walk(es: seq<Node>, path: string, requestMethod: string, req: Requirement, allow: seq<string>): Result<Outcome, RouteCompiler.CompileError>
    decreases es, 1
  {
    if |es| == 0 then Ok(Outcome(None, allow))
    else
      var o :- NodeStep(es[0], path, requestMethod, req, allow);
      if o.found.Some? then Ok(o) else Walk(es[1..], path, requestMethod, req, o.allow)
  }

  /** One entry: a nested collection is searched with the path decoded once more, unless its prefix rules it out. */
  function NodeStep(n: Node, path: string, requestMethod: string, req: Requirement, allow: seq<string>): Result<Outcome, RouteCompiler.CompileError>
    decreases n, 0
  {
    match n
    case Collection(prefix, kids) =>
      if !ContainsChar(prefix, '{') && !StartsWith(path, prefix) then Ok(Outcome(None, allow))
      else Walk(kids, UrlDecode(path), requestMethod, req, allow)
    case Route(name, d) =>
      var v :- RouteVerdict(name, d, path, requestMethod, req);
      match v
      case Skip => Ok(Outcome(None, allow))
      case Reject(methods) => Ok(Outcome(None, allow + methods))
      case Accept(p) => Ok(Outcome(Some(p), allow))
  }

  /** What match returns or throws, with `allow` reset first. */
  function MatchSpec(es: seq<Node>, path: string, requestMethod: string, req: Requirement): (r: Result<Parameters, MatchError>)
    ensures r.Err? && r.error.NotAllowed? ==>
      && |r.error.exception.allowedMethods| > 0
      && OrderedMaps.Distinct(r.error.exception.allowedMethods)
  {
    match Walk(es, UrlDecode(path), requestMethod, req, [])
    case Err(e) => Err(CompileFailed(e))
    case Ok(o) =>
      if o.found.Some? then Ok(o.found.value)
      else if |o.allow| > 0 then
        AllowedListFacts(o.allow);
        Err(NotAllowed(NewMethodNotAllowed(OrderedMaps.AppendNew([], UpperAll(o.allow)), "", 0)))
      else Err(ResourceNotFound)
  }

  /**
   * The list match throws with: array_unique keeps each upper-cased method
   * once, and the exception's own upper-casing leaves it as it is.
   */
  lemma AllowedListFacts(allow: seq<string>)
    requires |allow| > 0
    ensures var methods := OrderedMaps.AppendNew([], UpperAll(allow));
      && |methods| > 0
      && OrderedMaps.Distinct(methods)
      && NewMethodNotAllowed(methods, "", 0).allowedMethods == methods
      && (forall x :: x in methods <==> exists i :: 0 <= i < |allow| && x == Upper(allow[i]))
  {
    var up := UpperAll(allow);
    var methods := OrderedMaps.AppendNew([], up);
    OrderedMaps.AppendNewMembers([], up);
    OrderedMaps.AppendNewDistinct([], up);
    assert up[0] in methods;
    forall i | 0 <= i < |methods|
      ensures Upper(methods[i]) == methods[i]
    {
      assert methods[i] in up;
      var j :| 0 <= j < |up| && up[j] == methods[i];
      UpperIdempotent(allow[j]);
    }
    UpperCaseListUnchanged(methods, "", 0);
    forall x
      ensures x in methods <==> exists i :: 0 <= i < |allow| && x == Upper(allow[i])
    {
      if x in methods {
        var j :| 0 <= j < |up| && up[j] == x;
      }
    }
  }

  // ---------------------------------------------------------------------
  // Properties of the scan
  // ---------------------------------------------------------------------

  /**
   * The scan of `a + b` is the scan of `a`, and, only when `a` found
   * nothing, the scan of `b` continuing with the `allow` left by `a`:
   * once a route accepts, no later entry is consulted.
   */
  lemma {:induction false} WalkConcat(a: seq<Node>, b: seq<Node>, path: string, requestMethod: string, req: Requirement, allow: seq<string>)
    ensures Walk(a + b, path, requestMethod, req, allow) ==
      match Walk(a, path, requestMethod, req, allow)
      case Err(e) => Err(e)
      case Ok(o) => if o.found.Some? then Ok(o) else Walk(b, path, requestMethod, req, o.allow)
  {
    if |a| == 0 {
      assert a + b == b;
    } else {
      assert (a + b)[0] == a[0] && (a + b)[1..] == a[1..] + b;
      var o := NodeStep(a[0], path, requestMethod, req, allow);
      if o.Ok? && o.value.found.None? {
        WalkConcat(a[1..], b, path, requestMethod, req, o.value.allow);
      }
    }
  }

  /** One step of the scan from entry `i`. */
  lemma WalkFrom(es: seq<Node>, i: nat, path: string, requestMethod: string, req: Requirement, allow: seq<string>)
    requires i < |es|
    ensures Walk(es[i..], path, requestMethod, req, allow) ==
      match NodeStep(es[i], path, requestMethod, req, allow)
      case Err(e) => Err(e)
      case Ok(o) => if o.found.Some? then Ok(o) else Walk(es[i + 1..], path, requestMethod, req, o.allow)
  {
    assert es[i..][0] == es[i] && es[i..][1..] == es[i + 1..];
  }

  /** A nested collection whose literal prefix does not start the path is skipped whole. */
  lemma PrefixRulesOutCollection(prefix: string, kids: seq<Node>, rest: seq<Node>, path: string, requestMethod: string, req: Requirement, allow: seq<string>)
    requires !ContainsChar(prefix, '{') && !StartsWith(path, prefix)
    ensures Walk([Collection(prefix, kids)] + rest, path, requestMethod, req, allow) == Walk(rest, path, requestMethod, req, allow)
  {
    assert ([Collection(prefix, kids)] + rest)[1..] == rest;
  }

  /** A route that matches the path but not the method adds its methods to `allow`, and the scan goes on. */
  lemma RejectContinues(name: string, d: RouteDefinition, rest: seq<Node>, path: string, requestMethod: string, req: Requirement, allow: seq<string>)
    requires AllowedMethods(d).Some?
    requires RouteVerdict(name, d, path, requestMethod, req) == Ok(Reject(AllowedMethods(d).value))
    ensures Walk([Route(name, d)] + rest, path, requestMethod, req, allow) == Walk(rest, path, requestMethod, req, allow + AllowedMethods(d).value)
  {
    assert ([Route(name, d)] + rest)[1..] == rest;
  }

  /** The request method HEAD is judged exactly as GET. */
  lemma {:induction false} HeadIsGet(es: seq<Node>, path: string, req: Requirement, allow: seq<string>)
    decreases es
    ensures Walk(es, path, "HEAD", req, allow) == Walk(es, path, "GET", req, allow)
  {
    if |es| > 0 {
      HeadIsGetNode(es[0], path, req, allow);
      var o := NodeStep(es[0], path, "GET", req, allow);
      if o.Ok? && o.value.found.None? {
        HeadIsGet(es[1..], path, req, o.value.allow);
      }
    }
  }

  lemma {:induction false} HeadIsGetNode(n: Node, path: string, req: Requirement, allow: seq<string>)
    decreases n
    ensures NodeStep(n, path, "HEAD", req, allow) == NodeStep(n, path, "GET", req, allow)
  {
    match n
    case Collection(prefix, kids) =>
      HeadIsGet(kids, UrlDecode(path), req, allow);
    case Route(name, d) =>
  }

  /**
   * An accepted route's parameters: `_route` is its name; every other key
   * is a default or a captured variable, a captured value (raw-URL-decoded)
   * overriding the default.
   */
  lemma NamedKeysConcat(a: seq<(GroupKey, string)>, b: seq<(GroupKey, string)>)
    ensures NamedKeys(a + b) == NamedKeys(a) + NamedKeys(b)
  {
    var ab := a + b;
    forall k | k in NamedKeys(a) + NamedKeys(b)
      ensures k in NamedKeys(ab)
    {
      if k in NamedKeys(a) {
        var i :| 0 <= i < |a| && a[i].0.Name? && a[i].0.name == k;
        assert ab[i] == a[i];
      } else {
        var i :| 0 <= i < |b| && b[i].0.Name? && b[i].0.name == k;
        assert ab[|a| + i] == b[i];
      }
    }
  }

  /** The array preg_match fills has a name key for exactly the captured names. */
  lemma {:induction false} MatchesArrayNames(path: string, caps: Captures)
    ensures NamedKeys(MatchesArray(path, caps)) == CaptureNames(caps)
  {
    GroupEntriesNames(caps);
    NamedKeysConcat([(Index(0), path)], GroupEntries(caps));
  }

  lemma {:induction false} GroupEntriesNames(caps: Captures)
    ensures NamedKeys(GroupEntries(caps)) == CaptureNames(caps)
  {
    if |caps| > 0 {
      var init := caps[..|caps| - 1];
      var last := caps[|caps| - 1];
      GroupEntriesNames(init);
      var pair := [(Name(last.0), last.1), (Index(|caps|), last.1)];
      NamedKeysConcat(GroupEntries(init), pair);
      assert NamedKeys(pair) == {last.0} by {
        assert pair[0].0.Name? && !pair[1].0.Name?;
      }
      assert CaptureNames(caps) == CaptureNames(init) + {last.0} by {
        assert forall i :: 0 <= i < |init| ==> init[i] == caps[i];
      }
    }
  }

  /**
   * Every key of an accepted route's parameters is `_route`, one of its
   * defaults, or one of its path variables.
   */
  lemma AcceptedKeys(name: string, d: RouteDefinition, path: string, requestMethod: string, req: Requirement)
    requires RouteVerdict(name, d, path, requestMethod, req).Ok?
    requires RouteVerdict(name, d, path, requestMethod, req).value.Accept?
    ensures var c := RouteCompiler.CompileSpec(d).value;
      var p := RouteVerdict(name, d, path, requestMethod, req).value.parameters;
      forall k :: k in p ==> k == "_route" || k in d.defaults || k in VariableNamesFrom(ForwardTokens(c), 0)
  {
    var c := RouteCompiler.CompileSpec(d).value;
    var ts := ForwardTokens(c);
    var caps := RegexMatch(c, req, path).value;
    AcceptedParameters(name, d, path, requestMethod, req);
    MatchesArrayNames(path, caps);
    CapturedNames(ts, RouteCompiler.FirstOptional(c.route, ts), req, 0, path);
  }

  lemma AcceptedParameters(name: string, d: RouteDefinition, path: string, requestMethod: string, req: Requirement)
    requires RouteVerdict(name, d, path, requestMethod, req).Ok?
    requires RouteVerdict(name, d, path, requestMethod, req).value.Accept?
    ensures var c := RouteCompiler.CompileSpec(d).value;
      var caps := RegexMatch(c, req, path).value;
      RouteParametersOf(RouteVerdict(name, d, path, requestMethod, req).value.parameters, name, MatchesArray(path, caps), d.defaults)
  {
    var c := RouteCompiler.CompileSpec(d).value;
    var caps := RegexMatch(c, req, path).value;
    var params := MatchesArray(path, caps);
    assert RouteVerdict(name, d, path, requestMethod, req).value.parameters
      == MergeDefaultsSpec(params, d.defaults)["_route" := name];
    RouteParameters(name, params, d.defaults);
  }

  /**
   * The parameters of a matched route: `_route` is its name, a path
   * variable takes its decoded value, and a default fills in the others.
   */
  ghost predicate RouteParametersOf(p: Parameters, name: string, params: seq<(GroupKey, string)>, defaults: Parameters) {
    && "_route" in p && p["_route"] == name
    && (forall k :: k != "_route" ==> (k in p <==> k in defaults || k in NamedKeys(params)))
    && (forall k :: k != "_route" && k in NamedKeys(params) ==> k in p && p[k] == RawUrlDecode(LastNamed(params, k)))
    && (forall k :: k != "_route" && k in defaults && k !in NamedKeys(params) ==> k in p && p[k] == defaults[k])
  }

  /** Merging the captures into the defaults and adding the route name gives exactly those parameters. */
  lemma RouteParameters(name: string, params: seq<(GroupKey, string)>, defaults: Parameters)
    ensures RouteParametersOf(MergeDefaultsSpec(params, defaults)["_route" := name], name, params, defaults)
  {
  }

  /** The intended static-prefix pre-check never skips a route whose regex matches. */
  lemma PrefixCheckNeverLosesMatch(d: RouteDefinition, req: Requirement, path: string)
    requires RouteCompiler.CompileSpec(d).Ok?
    requires RegexMatch(RouteCompiler.CompileSpec(d).value, req, path).Some?
    ensures !StaticPrefixSkips(path, RouteCompiler.CompileSpec(d).value.staticPrefix)
  {
    RegexMatchStartsWithStaticPrefix(d, req, path);
  }

  /**
   * The check as written skips `/page/1` for the static prefix `/page`,
   * although the regex of `/page/{n}` (text `/page`, then variable `n`
   * after `/`) matches that path.
   */
  lemma PrefixCheckAsWrittenLosesMatch()
    ensures StaticPrefixSkipsAsWritten("/page/1", "/page")
    ensures !StaticPrefixSkips("/page/1", "/page")
    ensures var ts := [Text("/page"), Variable('/', "[^/]+?", "n")];
      var req: Requirement := (re, v) => v != "";
      MatchAt(ts, None, req, 0, "/page/1") == Some([("n", "1")])
  {
    assert "/page/1"[..5] == "/page";
    assert IndexOfFrom("/page/1", '1', 6) == Some(6);
    assert IndexOfFrom("/page/1", '1', 0) == Some(6) by {
      assert IndexOfFrom("/page/1", '1', 5) == Some(6);
      assert IndexOfFrom("/page/1", '1', 4) == Some(6);
      assert IndexOfFrom("/page/1", '1', 3) == Some(6);
      assert IndexOfFrom("/page/1", '1', 2) == Some(6);
      assert IndexOfFrom("/page/1", '1', 1) == Some(6);
    }
    var ts := [Text("/page"), Variable('/', "[^/]+?", "n")];
    var req: Requirement := (re, v) => v != "";
    assert "/page/1"[5..] == "/1" && "/1"[1..] == "1";
    assert "1"[..0] == "" && "1"[..1] == "1" && "1"[1..] == "";
    assert req(ts[1].regex, "1") && !req(ts[1].regex, "");
    assert MatchAt(ts, None, req, 2, "") == Some([]);
    assert TryValue(ts, None, req, 1, "1", 1) == Some([(ts[1].name, "1"[..1])] + []);
    assert [(ts[1].name, "1"[..1])] + [] == [("n", "1")];
    assert TryValue(ts, None, req, 1, "1", 1) == Some([("n", "1")]);
    assert TryValue(ts, None, req, 1, "1", 0) == Some([("n", "1")]);
  }

  // ---------------------------------------------------------------------
  // The matcher object
  // ---------------------------------------------------------------------

  class UrlMatcher {
    var context: RequestContext
    /** The methods of routes that matched the path but not the method. */
    var allow: seq<string>
    const routes: RouteCollection
    /** How each variable's regex judges a candidate value. */
    const req: Requirement

    constructor(routes: RouteCollection, context: RequestContext, req: Requirement)
      ensures this.routes == routes && this.context == context && this.req == req
      ensures allow == []
    {
      this.routes := routes;
      this.context := context;
      this.req := req;
      allow := [];
    }

    method SetContext(context: RequestContext)
      modifies this`context
      ensures this.context == context
    {
      this.context := context;
    }

    /** match: the parameters of the first accepting route, else method-not-allowed or not-found. */
    method Match(path: string) returns (r: Result<Parameters, MatchError>)
      modifies this`allow
      ensures r == MatchSpec(routes.entries, path, context.httpMethod, req)
    {
      allow := [];
      var res := MatchCollection(path, routes.entries);
      if res.Err? {
        return Err(CompileFailed(res.error));
      }
      if res.value.Some? {
        return Ok(res.value.value);
      }
      if |allow| > 0 {
        var methods := OrderedMaps.AppendNew([], UpperAll(allow));
        return Err(NotAllowed(NewMethodNotAllowed(methods, "", 0)));
      }
      return Err(ResourceNotFound);
    }

    /** matchCollection: decode the path, then try each entry in order. */
    method MatchCollection(path: string, es: seq<Node>) returns (r: Result<Option<Parameters>, RouteCompiler.CompileError>)
      modifies this`allow
      decreases es, 1
      ensures var w := Walk(es, UrlDecode(path), context.httpMethod, req, old(allow));
        && r == (match w case Err(e) => Err(e) case Ok(o) => Ok(o.found))
        && (w.Ok? ==> allow == w.value.allow)
    {
      var p := UrlDecode(path);
      var i := 0;
      while i < |es|
        invariant 0 <= i <= |es|
        invariant Walk(es, p, context.httpMethod, req, old(allow)) == Walk(es[i..], p, context.httpMethod, req, allow)
        decreases |es| - i
      {
        WalkFrom(es, i, p, context.httpMethod, req, allow);
        var o := MatchEntry(p, es[i]);
        if o.Err? {
          return Err(o.error);
        }
        if o.value.Some? {
          return o;
        }
        i := i + 1;
      }
      return Ok(None);
    }

    /** One entry of matchCollection's loop (lines 68-109). */
    method MatchEntry(p: string, n: Node) returns (r: Result<Option<Parameters>, RouteCompiler.CompileError>)
      modifies this`allow
      decreases n, 0
      ensures var s := NodeStep(n, p, context.httpMethod, req, old(allow));
        && r == (match s case Err(e) => Err(e) case Ok(o) => Ok(o.found))
        && (s.Ok? ==> allow == s.value.allow)
    {
      match n
      case Collection(prefix, kids) =>
        if !ContainsChar(prefix, '{') && !StartsWith(p, prefix) {
          return Ok(None);
        }
        r := MatchCollection(p, kids);
      case Route(name, d) =>
        var v := MatchRoute(p, name, d);
        if v.Err? {
          return Err(v.error);
        }
        match v.value
        case Skip =>
          return Ok(None);
        case Reject(methods) =>
          allow := allow + methods;
          return Ok(None);
        case Accept(parameters) =>
          return Ok(Some(parameters));
    }

    /** The body of matchCollection's loop for a route (lines 82-109). */
    method MatchRoute(p: string, name: string, d: RouteDefinition) returns (v: Result<Verdict, RouteCompiler.CompileError>)
      ensures v == RouteVerdict(name, d, p, context.httpMethod, req)
    {
      var c := RouteCompiler.Compile(d);
      if c.Err? {
        return Err(c.error);
      }
      var compiled := c.value;
      if StaticPrefixSkips(p, compiled.staticPrefix) {
        return Ok(Skip);
      }
      var caps := RegexMatch(compiled, req, p);
      if caps.None? {
        return Ok(Skip);
      }
      var methods := AllowedMethods(d);
      if methods.Some? {
        var requestMethod := context.httpMethod;
        if requestMethod == "HEAD" {
          requestMethod := "GET";
        }
        if !InArray(requestMethod, methods.value) {
          return Ok(Reject(methods.value));
        }
      }
      var parameters := MergeDefaults(MatchesArray(p, caps.value), d.defaults);
      return Ok(Accept(parameters["_route" := name]));
    }

    /** mergeDefaults, as its loop over the matches. */
    static method MergeDefaults(params: seq<(GroupKey, string)>, defaults: Parameters) returns (parameters: Parameters)
      ensures parameters == MergeDefaultsSpec(params, defaults)
    {
      parameters := defaults;
      for i := 0 to |params|
        invariant parameters == MergeDefaultsSpec(params[..i], defaults)
      {
        assert params[..i + 1][..i] == params[..i];
        match params[i].0
        case Name(key) =>
          parameters := parameters[key := RawUrlDecode(params[i].1)];
        case Index(_) =>
      }
      assert params[..|params|] == params;
    }
  }
}
