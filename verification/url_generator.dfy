/**
 * UrlGenerator (src/Ignite/Routing/Generator/UrlGenerator.php): rebuilds a
 * URL from a route name and parameters. The compiled route of a name is
 * cached on first use; the URL is built by walking the stored tokens, which
 * are kept last-declared first, prepending each token that renders.
 *
 * Parameter values are strings or null (`None`); the caller's parameters
 * are an ordered array, because their order decides the query string.
 *
 * Deviation from the code as written: line 123 tests
 * `array_key_exists($name, $defaults)` where the evident intent (a variable
 * without a default must always render) is `!array_key_exists`; the model
 * follows the intent (Renders).
 */
module UrlGenerating {
  import opened Wrappers
  import opened Strings
  import opened Routes
  import opened CompiledRoutes
  import RouteCompiler
  import opened RouteRegex
  import RouteCollections
  import OrderedMaps
  import opened UrlEncoding
  import opened RoutingContext

  /** Parameter values by name; null is `None`. */
  type Values = map<string, Option<string>>

  /** The caller's parameter array, in its own order. */
  type Arguments = OrderedMaps.OrderedMap<Option<string>>

  datatype GenerateError =
    | RouteNotFound(name: string)
    | CompileFailed(error: RouteCompiler.CompileError)
    | MissingMandatoryParameters(route: string, missing: seq<string>)
    | InvalidParameter(parameter: string, regex: string, value: string)

  /** The array as a map from key to value (the last pair of a key wins). */
  function ToValues(args: Arguments): (r: Values)
    ensures forall k :: k in r <==> k in OrderedMaps.Keys(args)
  {
    if |args| == 0 then map[]
    else
      var init := args[..|args| - 1];
      assert OrderedMaps.Keys(args) == OrderedMaps.Keys(init) + [args[|args| - 1].0];
      ToValues(init)[args[|args| - 1].0 := args[|args| - 1].1]
  }

  /** array_replace($base, $over) */
  function Replace(base: Values, over: Values): (r: Values)
    ensures forall k :: k in r <==> k in base || k in over
    ensures forall k :: k in over ==> r[k] == over[k]
    ensures forall k :: k in base && k !in over ==> r[k] == base[k]
  {
    map k | k in base.Keys + over.Keys :: if k in over then over[k] else base[k]
  }

  function DefaultValues(defaults: map<string, string>): (r: Values)
    ensures forall k :: k in r <==> k in defaults
    ensures forall k :: k in defaults ==> r[k] == Some(defaults[k])
  {
    map k | k in defaults :: Some(defaults[k])
  }

  /** `$parameters`: the caller's values over the context's. */
  function Parameters(context: Values, args: Arguments): Values {
    Replace(context, ToValues(args))
  }

  /** `$temporaryParameters`: those over the route's defaults. */
  function Temporary(defaults: map<string, string>, params: Values): Values {
    Replace(DefaultValues(defaults), params)
  }

  /** The value PHP reads for a name: null when absent. */
  function ValueOf(vs: Values, name: string): Option<string> {
    if name in vs then vs[name] else None
  }

  /** array_keys(array_diff_key(array_flip($variables), $temporary)) */
  function Missing(variables: seq<string>, temp: Values): (r: seq<string>)
    ensures forall x :: x in r <==> x in variables && x !in temp
  {
    if |variables| == 0 then []
    else
      var init := variables[..|variables| - 1];
      var last := variables[|variables| - 1];
      assert variables == init + [last];
      Missing(init, temp) + (if last in temp then [] else [last])
  }

  /**
   * The value given for `name` differs from its default under PHP's loose
   * `!=`, so `01` does not override a default of `1`.
   */
  predicate Overridden(name: string, params: Values, defaults: map<string, string>)
    requires name in defaults
  {
    name in params && params[name].Some? && !LooseEquals(params[name].value, defaults[name])
  }

  /** Whether a variable token is considered at all (line 123, with the intended negation). */
  predicate Renders(optional: bool, name: string, params: Values, defaults: map<string, string>) {
    !optional || name !in defaults || Overridden(name, params, defaults)
  }

  /**
   * Line 123 as written: a variable with a default is always considered,
   * and otherwise the absent default reads as null, which casts to "", so
   * only a non-empty value counts as overriding it.
   */
  predicate RendersAsWritten(optional: bool, name: string, params: Values, defaults: map<string, string>) {
    !optional || name in defaults
    || (name in params && params[name].Some? && !LooseEquals(params[name].value, ""))
  }

  /** A value is empty when it is null or "". */
  predicate IsEmpty(v: Option<string>) {
    v.None? || v.value == ""
  }

  /** The text a value renders as: rawurlencode, then `%2F` back to `/`. */
  function EncodedValue(v: Option<string>): string {
    KeepSlashes(RawUrlEncode(if v.Some? then v.value else ""))
  }

  /** The URL built so far and whether every token seen so far was left out. */
  datatype Progress = Progress(url: string, optional: bool)

  /** The state doGenerate's loop reads: `$parameters`, `$defaults`, `$temporaryParameters`, and the requirement matcher. */
  datatype Env = Env(params: Values, defaults: map<string, string>, temp: Values, req: Requirement)

  /** One pass of the token loop (lines 115-142). */
  function Step(p: Progress, t: Token, env: Env): Result<Progress, GenerateError> {
    match t
    case Text(literal) => Ok(Progress(literal + p.url, false))
    case Variable(sep, regex, name) =>
      if !Renders(p.optional, name, env.params, env.defaults) then Ok(p)
      else
        var v := ValueOf(env.temp, name);
        if !IsEmpty(v) && Truthy(v.value) && !env.req(regex, v.value) then Err(InvalidParameter(name, regex, v.value))
        else if !IsEmpty(v) || !p.optional then Ok(Progress([sep] + EncodedValue(v) + p.url, false))
        else Ok(Progress(p.url, false))
  }

  /** The loop over the first `n` stored tokens. */
  function Walk(ts: seq<Token>, n: nat, env: Env): Result<Progress, GenerateError>
    requires n <= |ts|
  {
    if n == 0 then Ok(Progress("", true))
    else
      var p :- Walk(ts, n - 1, env);
      Step(p, ts[n - 1], env)
  }

  /** `array_diff_key($originParameters, $variables, $defaults)`, in the caller's order. */
  function Extra(args: Arguments, variables: seq<string>, defaults: map<string, string>): (r: Arguments)
    ensures forall x :: x in r <==> x in args && x.0 !in variables && x.0 !in defaults
  {
    if |args| == 0 then []
    else
      var init := args[..|args| - 1];
      var last := args[|args| - 1];
      assert args == init + [last];
      Extra(init, variables, defaults) + (if last.0 !in variables && last.0 !in defaults then [last] else [])
  }

  /** The encoded `key=value` pairs http_build_query writes; null values are skipped. */
  function QueryPairs(args: Arguments): (r: seq<string>)
    ensures |r| <= |args|
    ensures forall i :: 0 <= i < |r| ==> |r[i]| > 0
    ensures |r| == 0 <==> forall i :: 0 <= i < |args| ==> args[i].1.None?
  {
    if |args| == 0 then []
    else
      var rest := QueryPairs(args[1..]);
      assert forall i :: 1 <= i < |args| ==> args[i] == args[1..][i - 1];
      if args[0].1.Some? then [FormEncode(args[0].0) + "=" + FormEncode(args[0].1.value)] + rest else rest
  }

  /** http_build_query($extra, '', '&') */
  function BuildQuery(args: Arguments): string {
    Join(QueryPairs(args), "&")
  }

  /** The port suffix for an absolute URL; none for http on 80 or https on 443. */
  function PortSuffix(scheme: string, httpPort: int, httpsPort: int): string {
    if scheme == "http" && httpPort != 80 then ":" + IntToString(httpPort)
    else if scheme == "https" && httpsPort != 443 then ":" + IntToString(httpsPort)
    else ""
  }

  /** The scheme a `_scheme` requirement asks for, when it is set and differs (PHP's loose `!=`) from the context's. */
  function ForcedScheme(requirements: map<string, string>, scheme: string): Option<string> {
    if "_scheme" in requirements && Truthy(Lower(requirements["_scheme"])) && !LooseEquals(scheme, Lower(requirements["_scheme"]))
    then Some(Lower(requirements["_scheme"]))
    else None
  }

  /** Lines 157-178: the base URL, then `scheme://host[:port]` when the URL must be absolute. */
  function Absolute(path: string, requirements: map<string, string>, absolute: bool,
                    baseUrl: string, host: string, scheme: string, httpPort: int, httpsPort: int): string
  {
    var url := baseUrl + path;
    if !Truthy(host) then url
    else
      var forced := ForcedScheme(requirements, scheme);
      var s := if forced.Some? then forced.value else scheme;
      if absolute || forced.Some? then s + "://" + host + PortSuffix(s, httpPort, httpsPort) + url else url
  }

  /** The path before the base URL: the token walk, "/" when falsy, then the query string. */
  function PathAndQuery(variables: seq<string>, defaults: map<string, string>, tokens: seq<Token>,
                        args: Arguments, params: Values, temp: Values, req: Requirement): Result<string, GenerateError>
  {
    var p :- Walk(tokens, |tokens|, Env(params, defaults, temp, req));
    var url := if Truthy(p.url) then p.url else "/";
    var extra := Extra(args, variables, defaults);
    var query := BuildQuery(extra);
    Ok(if |extra| > 0 && Truthy(query) then url + "?" + query else url)
  }

  /** doGenerate */
  function DoGenerateSpec(context: RequestContext, variables: seq<string>, defaults: map<string, string>,
                          requirements: map<string, string>, tokens: seq<Token>, args: Arguments,
                          name: string, absolute: bool, req: Requirement): Result<string, GenerateError>
    reads context
  {
    var params := Parameters(context.parameters, args);
    var temp := Temporary(defaults, params);
    var missing := Missing(variables, temp);
    if |missing| > 0 then Err(MissingMandatoryParameters(name, missing))
    else
      var path :- PathAndQuery(variables, defaults, tokens, args, params, temp, req);
      Ok(Absolute(path, requirements, absolute, context.baseUrl, context.host, context.scheme,
                  context.httpPort, context.httpsPort))
  }

  // ---------------------------------------------------------------------
  // Properties
  // ---------------------------------------------------------------------

  /** A caller's value beats the context's, which beats the route's default. */
  lemma Precedence(defaults: map<string, string>, context: Values, args: Arguments, k: string)
    ensures var temp := Temporary(defaults, Parameters(context, args));
      && (k in temp <==> k in OrderedMaps.Keys(args) || k in context || k in defaults)
      && (k in OrderedMaps.Keys(args) ==> temp[k] == ToValues(args)[k])
      && (k !in OrderedMaps.Keys(args) && k in context ==> temp[k] == context[k])
      && (k !in OrderedMaps.Keys(args) && k !in context && k in defaults ==> temp[k] == Some(defaults[k]))
  {
  }

  /** On a well-formed array, the value of a key is the value of its pair. */
  lemma {:induction false} ToValuesLookup(args: Arguments, i: nat)
    requires OrderedMaps.WellFormed(args) && i < |args|
    ensures ToValues(args)[args[i].0] == args[i].1
  {
    var init := args[..|args| - 1];
    if i < |args| - 1 {
      assert OrderedMaps.Keys(init) == OrderedMaps.Keys(args)[..|args| - 1];
      assert OrderedMaps.Keys(args)[i] != OrderedMaps.Keys(args)[|args| - 1];
      ToValuesLookup(init, i);
      assert init[i] == args[i];
    }
  }

  /** The generator fails for missing parameters exactly when a declared variable has no value anywhere. */
  lemma MissingParameters(context: RequestContext, variables: seq<string>, defaults: map<string, string>,
                          requirements: map<string, string>, tokens: seq<Token>, args: Arguments,
                          name: string, absolute: bool, req: Requirement)
    ensures var r := DoGenerateSpec(context, variables, defaults, requirements, tokens, args, name, absolute, req);
      && ((r.Err? && r.error.MissingMandatoryParameters?) <==>
            exists x :: x in variables && x !in OrderedMaps.Keys(args) && x !in context.parameters && x !in defaults)
      && (r.Err? && r.error.MissingMandatoryParameters? ==>
            forall x :: x in r.error.missing <==>
              x in variables && x !in OrderedMaps.Keys(args) && x !in context.parameters && x !in defaults)
  {
    var temp := Temporary(defaults, Parameters(context.parameters, args));
    var missing := Missing(variables, temp);
    forall x
      ensures x in temp <==> x in OrderedMaps.Keys(args) || x in context.parameters || x in defaults
    {
      Precedence(defaults, context.parameters, args, x);
    }
    if |missing| > 0 {
      assert missing[0] in missing;
    }
    WalkErrors(tokens, |tokens|, Env(Parameters(context.parameters, args), defaults, temp, req));
  }

  /** The walk fails only with an invalid parameter. */
  lemma {:induction false} WalkErrors(ts: seq<Token>, n: nat, env: Env)
    requires n <= |ts|
    ensures Walk(ts, n, env).Err? ==> Walk(ts, n, env).error.InvalidParameter?
  {
    if n > 0 {
      WalkErrors(ts, n - 1, env);
    }
  }

  /**
   * A variable left at its default is omitted while every token after it
   * in the pattern was omitted: when the stored tokens up to `n` are all
   * such variables, nothing is written.
   */
  lemma {:induction false} DefaultTailOmitted(ts: seq<Token>, n: nat, env: Env)
    requires n <= |ts|
    requires forall j :: 0 <= j < n ==> ts[j].Variable? && ts[j].name in env.defaults && !Overridden(ts[j].name, env.params, env.defaults)
    ensures Walk(ts, n, env) == Ok(Progress("", true))
  {
    if n > 0 {
      DefaultTailOmitted(ts, n - 1, env);
    }
  }

  /**
   * For `/blog/{page}` with the default page "1" and no parameters, the
   * test as written considers the trailing `page` (and so writes
   * `/blog/1`), while the intended test leaves it out (`/blog`).
   */
  lemma TrailingDefaultAsWritten()
    ensures var defaults := map["page" := "1"];
      var env := Env(map[], defaults, DefaultValues(defaults), (re, v) => true);
      var ts := [Variable('/', "[^/]+?", "page"), Text("/blog")];
      && RendersAsWritten(true, "page", env.params, env.defaults)
      && !Renders(true, "page", env.params, env.defaults)
      && Walk(ts, 2, env) == Ok(Progress("/blog", false))
  {
    var defaults := map["page" := "1"];
    var env := Env(map[], defaults, DefaultValues(defaults), (re, v) => true);
    var ts := [Variable('/', "[^/]+?", "page"), Text("/blog")];
    assert Walk(ts, 1, env) == Ok(Progress("", true));
    assert "/blog" + "" == "/blog";
  }

  /**
   * For `/blog/{page}` with the default page "1", the value "01" is loosely
   * equal to the default, so the trailing `page` is left out as if no value
   * had been given.
   */
  lemma LooselyEqualValueOmitted()
    ensures var defaults := map["page" := "1"];
      var params := map["page" := Some("01")];
      var env := Env(params, defaults, params, (re, v) => true);
      var ts := [Variable('/', "[^/]+?", "page"), Text("/blog")];
      && !Overridden("page", env.params, env.defaults)
      && Walk(ts, 2, env) == Ok(Progress("/blog", false))
  {
    LooseEqualsExamples();
    var defaults := map["page" := "1"];
    var params := map["page" := Some("01")];
    var env := Env(params, defaults, params, (re, v) => true);
    var ts := [Variable('/', "[^/]+?", "page"), Text("/blog")];
    assert Walk(ts, 1, env) == Ok(Progress("", true));
    assert "/blog" + "" == "/blog";
  }

  /** What a token contributes once it renders. */
  function Piece(t: Token, temp: Values): string {
    match t
    case Text(literal) => literal
    case Variable(sep, _, name) => [sep] + EncodedValue(ValueOf(temp, name))
  }

  /** The pieces of stored tokens `k..n`, each in front of those before it. */
  function Pieces(ts: seq<Token>, k: nat, n: nat, temp: Values): string
    requires k <= n <= |ts|
    decreases n - k
  {
    if n == k then "" else Piece(ts[n - 1], temp) + Pieces(ts, k, n - 1, temp)
  }

  /**
   * Once a token has rendered, every token before it in the pattern renders
   * too: from stored token `k` on, each contributes its piece in front.
   */
  lemma {:induction false} RenderedPrefix(ts: seq<Token>, k: nat, n: nat, env: Env, u: string)
    requires k <= n <= |ts|
    requires Walk(ts, k, env) == Ok(Progress(u, false))
    decreases n - k
    ensures Walk(ts, n, env).Ok? ==> Walk(ts, n, env) == Ok(Progress(Pieces(ts, k, n, env.temp) + u, false))
  {
    if n == k {
      assert Pieces(ts, k, n, env.temp) + u == u;
    } else if Walk(ts, n, env).Ok? {
      assert Walk(ts, n - 1, env).Ok?;
      RenderedPrefix(ts, k, n - 1, env, u);
      RenderedStep(ts, k, n, env, u);
    }
  }

  lemma RenderedStep(ts: seq<Token>, k: nat, n: nat, env: Env, u: string)
    requires k < n <= |ts|
    requires Walk(ts, n - 1, env) == Ok(Progress(Pieces(ts, k, n - 1, env.temp) + u, false))
    requires Walk(ts, n, env).Ok?
    ensures Walk(ts, n, env) == Ok(Progress(Pieces(ts, k, n, env.temp) + u, false))
  {
    var prev := Walk(ts, n - 1, env).value;
    StepRendered(prev, ts[n - 1], env);
    assert Piece(ts[n - 1], env.temp) + (Pieces(ts, k, n - 1, env.temp) + u) == Pieces(ts, k, n, env.temp) + u;
  }

  /** After a token has rendered, a step writes its token's piece in front. */
  lemma StepRendered(p: Progress, t: Token, env: Env)
    requires !p.optional
    requires Step(p, t, env).Ok?
    ensures Step(p, t, env).value == Progress(Piece(t, env.temp) + p.url, false)
  {
  }

  /** A value the generator writes decodes back to itself. */
  lemma EncodedValueDecodes(v: string)
    requires IsByteString(v)
    ensures RawUrlDecode(EncodedValue(Some(v))) == v
  {
    KeepSlashesEncode(v);
    RawUrlDecodeEncodePath(v);
  }

  /** The query string is written only for non-null extra parameters, none of which is a variable or a default. */
  lemma QueryOnlyExtras(args: Arguments, variables: seq<string>, defaults: map<string, string>)
    ensures var extra := Extra(args, variables, defaults);
      && (BuildQuery(extra) == "" <==> forall i :: 0 <= i < |extra| ==> extra[i].1.None?)
      && (forall i :: 0 <= i < |extra| ==> extra[i] in args && extra[i].0 !in variables && extra[i].0 !in defaults)
  {
    var extra := Extra(args, variables, defaults);
    JoinEmpty(QueryPairs(extra));
  }

  /** Joining `key=value` pairs gives "" only when there are none. */
  lemma JoinEmpty(pairs: seq<string>)
    requires forall i :: 0 <= i < |pairs| ==> |pairs[i]| > 0
    ensures Join(pairs, "&") == "" <==> |pairs| == 0
  {
  }

  /** With a host, an absolute URL is `scheme://host`, the port unless it is the scheme's default, then the base URL and path. */
  lemma AbsoluteShape(path: string, requirements: map<string, string>, absolute: bool,
                      baseUrl: string, host: string, scheme: string, httpPort: int, httpsPort: int)
    ensures var r := Absolute(path, requirements, absolute, baseUrl, host, scheme, httpPort, httpsPort);
      var forced := ForcedScheme(requirements, scheme);
      && (!Truthy(host) || (!absolute && forced.None?) ==> r == baseUrl + path)
      && (Truthy(host) && (absolute || forced.Some?) ==>
            var s := if forced.Some? then forced.value else scheme;
          r == s + "://" + host + PortSuffix(s, httpPort, httpsPort) + baseUrl + path)
      && PortSuffix("http", 80, httpsPort) == "" && PortSuffix("https", httpPort, 443) == ""
  {
  }

  // ---------------------------------------------------------------------
  // The generator object
  // ---------------------------------------------------------------------

  class UrlGenerator {
    var context: RequestContext
    const routes: RouteCollections.RouteCollection
    /** Compiled routes by name, filled on first use. */
    var cache: map<string, CompiledRoute>
    const req: Requirement

    constructor(routes: RouteCollections.RouteCollection, context: RequestContext, req: Requirement)
      ensures this.routes == routes && this.context == context && this.req == req
      ensures cache == map[]
    {
      this.routes := routes;
      this.context := context;
      this.req := req;
      cache := map[];
    }

    method SetContext(context: RequestContext)
      modifies this`context
      ensures this.context == context
    {
      this.context := context;
    }

    /** generate: look the route up, compile it once, then build the URL. */
    method Generate(name: string, args: Arguments, absolute: bool) returns (r: Result<string, GenerateError>)
      modifies this`cache
      ensures routes.Get(name).None? ==> r == Err(RouteNotFound(name)) && cache == old(cache)
      ensures name in old(cache) ==> cache == old(cache)
      ensures routes.Get(name).Some? && name !in old(cache) ==>
        match RouteCompiler.CompileSpec(routes.Get(name).value)
        case Err(e) => r == Err(CompileFailed(e)) && cache == old(cache)
        case Ok(c) => cache == old(cache)[name := c]
      ensures routes.Get(name).Some? && name in cache ==>
        var d := routes.Get(name).value;
        r == DoGenerateSpec(context, cache[name].variables, d.defaults, d.requirements, cache[name].tokens,
                            args, name, absolute, req)
    {
      var route := routes.Get(name);
      if route.None? {
        return Err(RouteNotFound(name));
      }
      if name !in cache {
        var c := RouteCompiler.Compile(route.value);
        if c.Err? {
          return Err(CompileFailed(c.error));
        }
        cache := cache[name := c.value];
      }
      var compiled := cache[name];
      r := DoGenerate(compiled.variables, route.value.defaults, route.value.requirements, compiled.tokens, args, name, absolute);
    }

    /** doGenerate, as its loop over the stored tokens. */
    method DoGenerate(variables: seq<string>, defaults: map<string, string>, requirements: map<string, string>,
                      tokens: seq<Token>, args: Arguments, name: string, absolute: bool)
      returns (r: Result<string, GenerateError>)
      ensures r == DoGenerateSpec(context, variables, defaults, requirements, tokens, args, name, absolute, req)
    {
      var params := Replace(context.parameters, ToValues(args));
      var temp := Replace(DefaultValues(defaults), params);
      var missing := Missing(variables, temp);
      if |missing| > 0 {
        return Err(MissingMandatoryParameters(name, missing));
      }
      var walked := WalkTokens(tokens, Env(params, defaults, temp, req));
      if walked.Err? {
        return Err(walked.error);
      }
      var url := walked.value.url;
      if !Truthy(url) {
        url := "/";
      }
      var extra := Extra(args, variables, defaults);
      var query := BuildQuery(extra);
      if |extra| > 0 && Truthy(query) {
        url := url + "?" + query;
      }
      url := MakeAbsolute(url, requirements, absolute);
      return Ok(url);
    }

    /** The token loop of doGenerate (lines 112-143). */
    method WalkTokens(tokens: seq<Token>, env: Env) returns (r: Result<Progress, GenerateError>)
      ensures r == Walk(tokens, |tokens|, env)
    {
      var url := "";
      var optional := true;
      for i := 0 to |tokens|
        invariant Walk(tokens, i, env) == Ok(Progress(url, optional))
      {
        match tokens[i]
        case Variable(sep, regex, key) =>
          if !optional || key !in env.defaults
            || (key in env.params && env.params[key].Some? && !LooseEquals(env.params[key].value, env.defaults[key])) {
            var value := ValueOf(env.temp, key);
            var isEmpty := value.None? || value.value == "";
            if !isEmpty && Truthy(value.value) && !env.req(regex, value.value) {
              WalkFails(tokens, i, env);
              return Err(InvalidParameter(key, regex, value.value));
            }
            if !isEmpty || !optional {
              url := [sep] + EncodedValue(value) + url;
            }
            optional := false;
          }
        case Text(literal) =>
          url := literal + url;
          optional := false;
      }
      return Ok(Progress(url, optional));
    }

    /** Lines 157-178: prepend the base URL, then the scheme, host and port when absolute. */
    method MakeAbsolute(path: string, requirements: map<string, string>, absolute: bool) returns (url: string)
      ensures url == Absolute(path, requirements, absolute, context.baseUrl, context.host, context.scheme,
                              context.httpPort, context.httpsPort)
    {
      url := context.baseUrl + path;
      if Truthy(context.host) {
        var scheme := context.scheme;
        var forced := absolute;
        if "_scheme" in requirements && Truthy(Lower(requirements["_scheme"])) && !LooseEquals(scheme, Lower(requirements["_scheme"])) {
          forced := true;
          scheme := Lower(requirements["_scheme"]);
        }
        if forced {
          var port := "";
          if scheme == "http" && context.httpPort != 80 {
            port := ":" + IntToString(context.httpPort);
          } else if scheme == "https" && context.httpsPort != 443 {
            port := ":" + IntToString(context.httpsPort);
          }
          url := scheme + "://" + context.host + port + url;
        }
      }
    }
  }

  /** An error at one token ends the walk with that error. */
  lemma {:induction false} WalkFails(ts: seq<Token>, i: nat, env: Env)
    requires i < |ts|
    requires Walk(ts, i, env).Ok?
    requires Step(Walk(ts, i, env).value, ts[i], env).Err?
    ensures Walk(ts, |ts|, env) == Step(Walk(ts, i, env).value, ts[i], env)
    decreases |ts| - i
  {
    ErrorPersists(ts, i + 1, |ts|, env);
  }

  lemma {:induction false} ErrorPersists(ts: seq<Token>, k: nat, n: nat, env: Env)
    requires 0 < k <= n <= |ts|
    requires Walk(ts, k, env).Err?
    decreases n - k
    ensures Walk(ts, n, env) == Walk(ts, k, env)
  {
    if n > k {
      ErrorPersists(ts, k, n - 1, env);
    }
  }
}
