/**
 * The simple method router (src/Ignite/Routing/Route.php, Router.php): an
 * ordered list of routes, each a URI pattern with the HTTP methods it
 * accepts; dispatch takes the first route that accepts the request.
 *
 * Whether a pattern matches a URI is a parameter (`Regex`): regular
 * expression matching itself is not part of this model.
 *
 * Deviation from the code as written: Route.php:47 compares the request
 * method with `$this->method`, a property the class does not declare, so
 * it reads null and no route ever matches; the intended test is membership
 * in `methods` (Route.Matches, MatchesAsWritten).
 */
module SimpleRouting {
  import opened Wrappers
  import opened Strings

  /** `Regex(pattern, subject)`: preg_match of the delimited pattern finds a match in the subject. */
  type Regex = (string, string) -> bool

  /** The `$methods` argument before `(array)`: a single method, a list, or null. */
  datatype MethodArgument = Single(m: string) | List(ms: seq<string>) | Null

  /** `(array)$methods` */
  function AsList(arg: MethodArgument): (r: seq<string>)
    ensures arg.Single? ==> r == [arg.m]
    ensures arg.List? ==> r == arg.ms
    ensures arg.Null? ==> r == []
  {
    match arg
    case Single(m) => [m]
    case List(ms) => ms
    case Null => []
  }

  /** str_replace('/', '\/', $uri) */
  function EscapeSlashes(uri: string): (r: string)
    ensures forall i :: 0 <= i < |r| && r[i] == '/' ==> i > 0 && r[i - 1] == '\\'
  {
    if |uri| == 0 then ""
    else
      var head := if uri[0] == '/' then "\\/" else [uri[0]];
      var rest := EscapeSlashes(uri[1..]);
      assert forall i :: |head| <= i < |head + rest| ==> (head + rest)[i] == rest[i - |head|];
      head + rest
  }

  /** Reading `\/` back as `/`. */
  function UnescapeSlashes(s: string): string {
    if |s| == 0 then ""
    else if |s| >= 2 && s[0] == '\\' && s[1] == '/' then "/" + UnescapeSlashes(s[2..])
    else [s[0]] + UnescapeSlashes(s[1..])
  }

  /** Escaping loses nothing: the URI can be read back from the pattern body. */
  lemma {:induction false} UnescapeEscape(uri: string)
    ensures UnescapeSlashes(EscapeSlashes(uri)) == uri
  {
    if |uri| > 0 {
      var rest := EscapeSlashes(uri[1..]);
      UnescapeEscape(uri[1..]);
      if uri[0] == '/' {
        assert ("\\/" + rest)[2..] == rest;
      } else if uri[0] == '\\' {
        var e := [uri[0]] + rest;
        assert e[1..] == rest;
      } else {
        assert ([uri[0]] + rest)[1..] == rest;
      }
    }
  }

  /** The pattern matches builds: `/^` + escaped URI + `$/`. */
  function UriPattern(uri: string): (r: string)
    ensures |r| >= 4 && r[..2] == "/^" && r[|r| - 2..] == "$/"
  {
    "/^" + EscapeSlashes(uri) + "$/"
  }

  class Route {
    var uri: string
    var methods: seq<string>
    /** The handler description, kept as given. */
    var action: seq<string>

    /** A route that accepts GET also accepts HEAD. */
    ghost predicate Valid()
      reads this
    {
      "GET" in methods ==> "HEAD" in methods
    }

    constructor(arg: MethodArgument, uri: string, action: seq<string>)
      ensures Valid()
      ensures this.uri == uri && this.action == action
      ensures var ms := AsList(arg);
        methods == if "GET" in ms && "HEAD" !in ms then ms + ["HEAD"] else ms
    {
      this.uri := uri;
      this.methods := AsList(arg);
      this.action := action;
      new;
      if "GET" in methods && "HEAD" !in methods {
        methods := methods + ["HEAD"];
      }
    }

    function Uri(): (r: string)
      reads this
      ensures r == uri
    {
      uri
    }

    /**
     * matches, with the intended method test: a method loosely `in_array`
     * among the route's, on a URI its pattern matches.
     */
    predicate Matches(m: string, subject: string, rx: Regex)
      reads this
      ensures Matches(m, subject, rx) ==> InArray(m, methods)
      ensures Matches(m, subject, rx) && IntegerNumeric(m).None? ==> m in methods
      ensures InArray(m, methods) ==> (Matches(m, subject, rx) <==> rx(UriPattern(uri), subject))
    {
      InArray(m, methods) && rx(UriPattern(uri), subject)
    }
  }

  /** Route.php:47 as written: the undeclared `$this->method` reads as null, which is never `===` a string. */
  predicate MatchesAsWritten(uri: string, m: string, subject: string, rx: Regex) {
    var declared: Option<string> := None;
    declared == Some(m) && rx(UriPattern(uri), subject)
  }

  /** As written, no route matches any request, while the intended test accepts a GET route for GET. */
  lemma NoRouteMatchesAsWritten(r: Route, subject: string, rx: Regex)
    requires "GET" in r.methods && rx(UriPattern(r.uri), subject)
    ensures forall m :: !MatchesAsWritten(r.uri, m, subject, rx)
    ensures r.Matches("GET", subject, rx)
  {
  }

  /** A GET route answers HEAD requests the same way. */
  lemma HeadLikeGet(r: Route, subject: string, rx: Regex)
    requires r.Valid()
    ensures r.Matches("GET", subject, rx) ==> r.Matches("HEAD", subject, rx)
  {
    GetNotNumeric();
  }

  /** `GET` is no integer, so in_array finds it only as itself. */
  lemma GetNotNumeric()
    ensures IntegerNumeric("GET").None?
  {
    TrimUnchanged("GET", NumericSpace);
    assert "GET"[0] == 'G';
  }

  class Router {
    var routes: seq<Route>

    constructor()
      ensures routes == []
    {
      routes := [];
    }

    /** Every registered route keeps the GET-implies-HEAD rule. */
    ghost predicate Valid()
      reads this, routes
    {
      forall i :: 0 <= i < |routes| ==> routes[i].Valid()
    }

    /** addRoute: one new route at the end. */
    method AddRoute(arg: MethodArgument, uri: string, action: seq<string>)
      modifies this`routes
      ensures |routes| == |old(routes)| + 1 && routes[..|old(routes)|] == old(routes)
      ensures fresh(routes[|routes| - 1])
      ensures routes[|routes| - 1].uri == uri && routes[|routes| - 1].Valid()
      ensures var ms := AsList(arg);
        routes[|routes| - 1].methods == if "GET" in ms && "HEAD" !in ms then ms + ["HEAD"] else ms
      ensures old(Valid()) ==> Valid()
    {
      var route := new Route(arg, uri, action);
      routes := routes + [route];
    }

    /** get: a GET route, which therefore also takes HEAD. */
    method Get(uri: string, action: seq<string>)
      modifies this`routes
      ensures |routes| == |old(routes)| + 1 && routes[..|old(routes)|] == old(routes)
      ensures fresh(routes[|routes| - 1])
      ensures routes[|routes| - 1].uri == uri && routes[|routes| - 1].methods == ["GET", "HEAD"]
      ensures old(Valid()) ==> Valid()
    {
      AddRoute(Single("GET"), uri, action);
    }

    /** dispatch: the first registered route that matches, else "Route not found". */
    method Dispatch(m: string, subject: string, rx: Regex) returns (r: Result<Route, string>)
      ensures r.Ok? ==>
        exists i :: 0 <= i < |routes| && routes[i] == r.value && routes[i].Matches(m, subject, rx)
          && forall j :: 0 <= j < i ==> !routes[j].Matches(m, subject, rx)
      ensures r.Err? ==>
        && r.error == "Route not found"
        && forall j :: 0 <= j < |routes| ==> !routes[j].Matches(m, subject, rx)
    {
      for i := 0 to |routes|
        invariant forall j :: 0 <= j < i ==> !routes[j].Matches(m, subject, rx)
      {
        var route := routes[i];
        if InArray(m, route.methods) && rx(UriPattern(route.uri), subject) {
          return Ok(route);
        }
      }
      return Err("Route not found");
    }
  }
}
