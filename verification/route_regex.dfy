/**
 * What the regex built by the route compiler matches, stated over the
 * tokens it is built from. The regex is `#^P0 P1 ... Pn-1$#s` where a text
 * token contributes its quoted literal and a variable token
 * `sep(?P<name>regex)`; from firstOptional on, every variable opens a
 * non-capturing group that is closed, optional, after the last token
 * (RouteCompiler.TokenRegex). The search below tries alternatives in the
 * order PCRE's backtracking does: an optional group is tried before it is
 * skipped, and a variable's value is tried shortest first, as the lazy
 * default `[^...]+?` is.
 *
 * Whether a variable's own regex matches a whole candidate value is a
 * parameter (`Requirement`): regular expression matching itself is not
 * part of this model.
 */
module RouteRegex {
  import opened Wrappers
  import opened Strings
  import opened Routes
  import opened CompiledRoutes
  import opened RouteCompiler

  /** `Requirement(regex, value)`: `regex` matches all of `value`. */
  type Requirement = (string, string) -> bool

  /** The named captures of a match, in group order. */
  type Captures = seq<(string, string)>

  /**
   * Where `$` may match: at the end, or before a final newline (the
   * pattern has no D modifier).
   */
  predicate AtEnd(s: string) {
    s == "" || s == "\n"
  }

  /** The only regex without a group around its optional variable: `sep(?P<name>regex)?`. */
  predicate SingleOptional(ts: seq<Token>, fo: Option<nat>) {
    |ts| == 1 && fo == Some(0) && ts[0].Variable?
  }

  /** Match tokens `i..` of the regex against `s`, up to the end anchor. */
  function MatchAt(ts: seq<Token>, fo: Option<nat>, req: Requirement, i: nat, s: string): Option<Captures>
    requires i <= |ts|
    decreases |ts| - i, 2, 0
  {
    if i == |ts| then
      if AtEnd(s) then Some([]) else None
    else if SingleOptional(ts, fo) then
      // the separator is mandatory; the capture is tried, then skipped
      if |s| > 0 && s[0] == ts[0].separator then
        var c := TryValue(ts, fo, req, 0, s[1..], 0);
        if c.Some? then c else if AtEnd(s[1..]) then Some([]) else None
      else None
    else if fo.Some? && i >= fo.value then
      // the group opened at token i: tried first, skipped when that fails
      var c := MatchToken(ts, fo, req, i, s);
      if c.Some? then c else if AtEnd(s) then Some([]) else None
    else
      MatchToken(ts, fo, req, i, s)
  }

  /** Token `i` itself, then the rest of the regex. */
  function MatchToken(ts: seq<Token>, fo: Option<nat>, req: Requirement, i: nat, s: string): Option<Captures>
    requires i < |ts|
    decreases |ts| - i, 1, 0
  {
    match ts[i]
    case Text(literal) =>
      if StartsWith(s, literal) then MatchAt(ts, fo, req, i + 1, s[|literal|..]) else None
    case Variable(sep, _, _) =>
      if |s| > 0 && s[0] == sep then TryValue(ts, fo, req, i, s[1..], 0) else None
  }

  /** The value of variable token `i` is `s[..len]` or longer. */
  function TryValue(ts: seq<Token>, fo: Option<nat>, req: Requirement, i: nat, s: string, len: nat): Option<Captures>
    requires i < |ts| && ts[i].Variable? && len <= |s|
    decreases |ts| - i, 0, |s| - len
  {
    var rest := if req(ts[i].regex, s[..len]) then MatchAt(ts, fo, req, i + 1, s[len..]) else None;
    if rest.Some? then Some([(ts[i].name, s[..len])] + rest.value)
    else if len < |s| then TryValue(ts, fo, req, i, s, len + 1)
    else None
  }

  /** The forward tokens of a compiled route (it stores them reversed). */
  function ForwardTokens(c: CompiledRoute): seq<Token> {
    Reverse(c.tokens)
  }

  /** preg_match of the compiled route's regex against `path`, with its named captures. */
  function RegexMatch(c: CompiledRoute, req: Requirement, path: string): Option<Captures> {
    var ts := ForwardTokens(c);
    MatchAt(ts, FirstOptional(c.route, ts), req, 0, path)
  }

  /** The forward tokens of a compiled route are those the compiler scanned. */
  lemma ForwardTokensOfCompile(route: RouteDefinition)
    requires CompileSpec(route).Ok?
    ensures var c := CompileSpec(route).value;
      && ForwardTokens(c) == Tokenize(route, NonEmpty).value.0
      && c.staticPrefix == StaticPrefix(ForwardTokens(c))
  {
    ReverseReverse(Tokenize(route, NonEmpty).value.0);
  }

  /**
   * Every match starts with the static prefix: when the first token is
   * text, no alternative of the regex can skip it.
   */
  lemma MatchStartsWithStaticPrefix(route: RouteDefinition, ts: seq<Token>, req: Requirement, s: string)
    requires MatchAt(ts, FirstOptional(route, ts), req, 0, s).Some?
    ensures StartsWith(s, StaticPrefix(ts))
  {
    var fo := FirstOptional(route, ts);
    if |ts| > 0 && ts[0].Text? {
      assert !IsOptional(route, ts[0]);
    }
  }

  /** A compiled route matches only paths that start with its static prefix. */
  lemma RegexMatchStartsWithStaticPrefix(route: RouteDefinition, req: Requirement, path: string)
    requires CompileSpec(route).Ok?
    requires RegexMatch(CompileSpec(route).value, req, path).Some?
    ensures StartsWith(path, CompileSpec(route).value.staticPrefix)
  {
    var c := CompileSpec(route).value;
    ForwardTokensOfCompile(route);
    MatchStartsWithStaticPrefix(c.route, ForwardTokens(c), req, path);
  }

  /** The names of the variable tokens from index `i` on. */
  function VariableNamesFrom(ts: seq<Token>, i: nat): (r: set<string>)
    decreases |ts| - i
    ensures i < |ts| && ts[i].Variable? ==> ts[i].name in r
    ensures i < |ts| ==> VariableNamesFrom(ts, i + 1) <= r
  {
    if i >= |ts| then {}
    else (if ts[i].Variable? then {ts[i].name} else {}) + VariableNamesFrom(ts, i + 1)
  }

  /** Every captured name is one of `names`. */
  predicate NamesIn(c: Captures, names: set<string>) {
    forall k :: 0 <= k < |c| ==> c[k].0 in names
  }

  lemma NamesInCons(x: (string, string), c: Captures, small: set<string>, names: set<string>)
    requires x.0 in names && NamesIn(c, small) && small <= names
    ensures NamesIn([x] + c, names)
  {
    forall k | 1 <= k < |[x] + c|
      ensures ([x] + c)[k].0 in names
    {
      assert ([x] + c)[k] == c[k - 1];
    }
  }

  /** Every captured name is the name of a variable token the match passed through. */
  lemma {:induction false} CapturedNames(ts: seq<Token>, fo: Option<nat>, req: Requirement, i: nat, s: string)
    requires i <= |ts| && MatchAt(ts, fo, req, i, s).Some?
    decreases |ts| - i, 2, 0
    ensures NamesIn(MatchAt(ts, fo, req, i, s).value, VariableNamesFrom(ts, i))
  {
    if i < |ts| {
      if SingleOptional(ts, fo) {
        if TryValue(ts, fo, req, 0, s[1..], 0).Some? {
          CapturedNamesValue(ts, fo, req, 0, s[1..], 0);
        }
      } else if fo.Some? && i >= fo.value {
        if MatchToken(ts, fo, req, i, s).Some? {
          CapturedNamesToken(ts, fo, req, i, s);
        }
      } else {
        CapturedNamesToken(ts, fo, req, i, s);
      }
    }
  }

  lemma {:induction false} CapturedNamesToken(ts: seq<Token>, fo: Option<nat>, req: Requirement, i: nat, s: string)
    requires i < |ts| && MatchToken(ts, fo, req, i, s).Some?
    decreases |ts| - i, 1, 0
    ensures NamesIn(MatchToken(ts, fo, req, i, s).value, VariableNamesFrom(ts, i))
  {
    match ts[i]
    case Text(literal) =>
      CapturedNames(ts, fo, req, i + 1, s[|literal|..]);
    case Variable(_, _, _) =>
      CapturedNamesValue(ts, fo, req, i, s[1..], 0);
  }

  lemma {:induction false} CapturedNamesValue(ts: seq<Token>, fo: Option<nat>, req: Requirement, i: nat, s: string, len: nat)
    requires i < |ts| && ts[i].Variable? && len <= |s|
    requires TryValue(ts, fo, req, i, s, len).Some?
    decreases |ts| - i, 0, |s| - len
    ensures NamesIn(TryValue(ts, fo, req, i, s, len).value, VariableNamesFrom(ts, i))
  {
    var rest := if req(ts[i].regex, s[..len]) then MatchAt(ts, fo, req, i + 1, s[len..]) else None;
    if rest.Some? {
      CapturedNames(ts, fo, req, i + 1, s[len..]);
      NamesInCons((ts[i].name, s[..len]), rest.value, VariableNamesFrom(ts, i + 1), VariableNamesFrom(ts, i));
    } else {
      CapturedNamesValue(ts, fo, req, i, s, len + 1);
    }
  }

  /** A route without variables matches its literal path exactly, or with one final newline. */
  lemma TextRouteMatches(literal: string, route: RouteDefinition, req: Requirement, s: string)
    requires literal != ""
    ensures var ts := [Text(literal)];
      MatchAt(ts, FirstOptional(route, ts), req, 0, s).Some? <==> s == literal || s == literal + "\n"
  {
    var ts := [Text(literal)];
    var fo := FirstOptional(route, ts);
    assert fo == None;
    assert MatchAt(ts, fo, req, 0, s) == MatchToken(ts, fo, req, 0, s);
    if StartsWith(s, literal) {
      var rest := s[|literal|..];
      assert s == literal + rest;
      assert MatchToken(ts, fo, req, 0, s) == MatchAt(ts, fo, req, 1, rest);
      assert MatchAt(ts, fo, req, 1, rest).Some? <==> AtEnd(rest);
    }
    if s == literal + "\n" || s == literal {
      assert s[..|literal|] == literal;
    }
  }
}
