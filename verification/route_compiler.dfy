/**
 * RouteCompiler (src/Ignite/Routing/RouteCompiler.php): turns a route
 * pattern such as `/blog/{slug}` into text and variable tokens, a static
 * prefix, an anchored regex and the list of variable names.
 *
 * The scanner `Placeholders` stands for preg_match_all with the pattern
 * `.\{([\w\d_]+)\}`; `Step` is one iteration of the scan loop and
 * `CompileSpec` the whole compilation, against which the method `Compile`
 * is proved. Deviations from the code as written, each the evident intent:
 *  - line 22 reads `$pattern[$position]`; the separator is the character
 *    before `{`, i.e. the first character of the match (`$match[0][0][0]`);
 *  - line 23 advances by `strlen` of the offset; the position moves past
 *    the whole matched text instead;
 *  - line 33 reads the misspelt `$seperators`; the collected separators are
 *    used.
 */
module RouteCompiler {
  import opened Wrappers
  import opened Strings
  import opened Routes
  import opened CompiledRoutes

  // ---------------------------------------------------------------------
  // preg_quote($s, '#')
  // ---------------------------------------------------------------------

  const QuotedChars: set<char> :=
    {'.', '\\', '+', '*', '?', '[', '^', ']', '$', '(', ')', '{', '}',
     '=', '!', '>', '<', '|', ':', '-', '#'}

  function QuoteChar(c: char): string {
    if c in QuotedChars then ['\\', c]
    else if c == '\0' then "\\000"
    else [c]
  }

  function Quote(s: string): (r: string)
    ensures |s| > 0 ==> |r| > 0 && r[0] != '('
  {
    if |s| == 0 then "" else QuoteChar(s[0]) + Quote(s[1..])
  }

  // ---------------------------------------------------------------------
  // The placeholder scanner: preg_match_all('#.\{([\w\d_]+)\}#', ...)
  // ---------------------------------------------------------------------

  /** `\w` outside UTF mode: ASCII letters, digits and the underscore. */
  predicate IsWordChar(c: char) {
    'a' <= c <= 'z' || 'A' <= c <= 'Z' || '0' <= c <= '9' || c == '_'
  }

  function WordRunEnd(p: string, k: nat): (j: nat)
    requires k <= |p|
    decreases |p| - k
    ensures k <= j <= |p|
    ensures forall i :: k <= i < j ==> IsWordChar(p[i])
    ensures j == |p| || !IsWordChar(p[j])
  {
    if k == |p| || !IsWordChar(p[k]) then k else WordRunEnd(p, k + 1)
  }

  /** One match: the offset of its first character, the captured name, and the offset just past `}`. */
  datatype Placeholder = Placeholder(offset: nat, name: string, end: nat)

  /** `m` is an occurrence of the placeholder regex in `p`: any character but a newline, then `{name}`. */
  predicate IsPlaceholder(p: string, m: Placeholder) {
    && m.offset + 3 + |m.name| == m.end <= |p|
    && |m.name| >= 1
    && p[m.offset] != '\n'
    && p[m.offset + 1..m.end] == "{" + m.name + "}"
    && (forall i :: 0 <= i < |m.name| ==> IsWordChar(m.name[i]))
  }

  /** The match of the placeholder regex that starts exactly at `k`, if any. */
  function PlaceholderAt(p: string, k: nat): (r: Option<Placeholder>)
    ensures r.Some? ==> r.value.offset == k && IsPlaceholder(p, r.value)
    ensures forall m: Placeholder :: m.offset == k && IsPlaceholder(p, m) ==> r == Some(m)
  {
    if k + 1 < |p| && p[k] != '\n' && p[k + 1] == '{' then
      var j := WordRunEnd(p, k + 2);
      if j > k + 2 && j < |p| && p[j] == '}' then
        var m := Placeholder(k, p[k + 2..j], j + 1);
        assert p[k + 1..j + 1] == "{" + m.name + "}";
        PlaceholderAtUnique(p, m);
        Some(m)
      else
        PlaceholderAtNone(p, k);
        None
    else
      None
  }

  lemma SliceSplit(s: string, i: nat, j: nat)
    requires i <= j <= |s|
    ensures s[..j] == s[..i] + s[i..j]
  {
  }

  /** A placeholder match reads `sep{name}`. */
  lemma PlaceholderSpelling(p: string, m: Placeholder)
    requires IsPlaceholder(p, m)
    ensures p[m.offset..m.end] == [p[m.offset]] + "{" + m.name + "}"
  {
    assert p[m.offset..m.end] == [p[m.offset]] + p[m.offset + 1..m.end];
  }

  /** The characters a placeholder match consists of. */
  lemma PlaceholderChars(p: string, m: Placeholder)
    requires IsPlaceholder(p, m)
    ensures p[m.offset + 1] == '{' && p[m.end - 1] == '}'
    ensures forall i :: 0 <= i < |m.name| ==> p[m.offset + 2 + i] == m.name[i]
    ensures forall i :: m.offset + 2 <= i < m.end - 1 ==> IsWordChar(p[i])
  {
    var body := p[m.offset + 1..m.end];
    assert body[0] == '{' && body[|body| - 1] == '}';
    forall i | 0 <= i < |m.name|
      ensures p[m.offset + 2 + i] == m.name[i]
    {
      assert body[i + 1] == m.name[i];
    }
    forall i | m.offset + 2 <= i < m.end - 1
      ensures IsWordChar(p[i])
    {
      assert p[i] == m.name[i - m.offset - 2];
    }
  }

  lemma PlaceholderAtUnique(p: string, m: Placeholder)
    requires IsPlaceholder(p, m)
    ensures forall m': Placeholder :: m'.offset == m.offset && IsPlaceholder(p, m') ==> m' == m
  {
    PlaceholderChars(p, m);
    forall m': Placeholder | m'.offset == m.offset && IsPlaceholder(p, m')
      ensures m' == m
    {
      PlaceholderChars(p, m');
      if |m'.name| == |m.name| {
        assert m'.name == m.name;
      }
    }
  }

  lemma PlaceholderAtNone(p: string, k: nat)
    requires k + 1 < |p| && p[k] != '\n' && p[k + 1] == '{'
    requires var j := WordRunEnd(p, k + 2); !(j > k + 2 && j < |p| && p[j] == '}')
    ensures forall m: Placeholder :: m.offset == k ==> !IsPlaceholder(p, m)
  {
    forall m: Placeholder | m.offset == k && IsPlaceholder(p, m)
      ensures false
    {
      PlaceholderChars(p, m);
    }
  }

  /** Well-formed scanner output: genuine matches, left to right, not overlapping. */
  predicate Ordered(p: string, ms: seq<Placeholder>, from: nat) {
    && (forall i :: 0 <= i < |ms| ==> IsPlaceholder(p, ms[i]))
    && (|ms| > 0 ==> from <= ms[0].offset)
    && (forall i :: 0 <= i < |ms| - 1 ==> ms[i].end <= ms[i + 1].offset)
  }

  /** preg_match_all: the successive leftmost non-overlapping matches at or after `from`. */
  function Placeholders(p: string, from: nat): (ms: seq<Placeholder>)
    decreases |p| - from
    ensures Ordered(p, ms, from)
  {
    if from >= |p| then []
    else
      match PlaceholderAt(p, from)
      case Some(m) => [m] + Placeholders(p, m.end)
      case None => Placeholders(p, from + 1)
  }

  lemma OrderedPrefix(p: string, ms: seq<Placeholder>, i: nat)
    requires Ordered(p, ms, 0) && i <= |ms|
    ensures Ordered(p, ms[..i], 0)
  {
  }

  // ---------------------------------------------------------------------
  // The scan loop (lines 17-43) and the trailing text (lines 45-47)
  // ---------------------------------------------------------------------

  datatype ScanState = ScanState(tokens: seq<Token>, variables: seq<string>, position: nat)

  /** The LogicException of line 39. */
  datatype CompileError = DuplicateVariable(pattern: string, name: string)

  /** The separator before `{` and, unless the match ends the pattern, the character after `}`. */
  function SeparatorsFor(p: string, m: Placeholder): string
    requires IsPlaceholder(p, m)
  {
    [p[m.offset]] + (if m.end != |p| then [p[m.end]] else [])
  }

  /** `[^S]+?` for the de-duplicated, quoted separator set S (line 33). */
  function DefaultRegex(p: string, m: Placeholder): string
    requires IsPlaceholder(p, m)
  {
    "[^" + Quote(Unique(SeparatorsFor(p, m))) + "]+?"
  }

  /** A declared (truthy) requirement wins over the synthesised class (lines 26-34). */
  function VariableRegex(route: RouteDefinition, m: Placeholder): string
    requires IsPlaceholder(route.pattern, m)
  {
    match route.Requirement(m.name)
    case Some(req) => if Truthy(req) then req else DefaultRegex(route.pattern, m)
    case None => DefaultRegex(route.pattern, m)
  }

  /**
   * Which text runs between placeholders become text tokens. Line 18 tests
   * the run's PHP truthiness, which also drops the run "0"; the intended
   * rule drops only the empty run (see the Findings of the README).
   */
  datatype TextRule = PhpTruthiness | NonEmpty

  predicate KeepsText(rule: TextRule, text: string) {
    match rule
    case PhpTruthiness => Truthy(text)
    case NonEmpty => text != ""
  }

  /** One iteration of the scan loop. */
  function Step(route: RouteDefinition, st: ScanState, m: Placeholder, rule: TextRule): Result<ScanState, CompileError>
    requires IsPlaceholder(route.pattern, m) && st.position <= m.offset
  {
    var p := route.pattern;
    var text := p[st.position..m.offset];
    var withText := if KeepsText(rule, text) then st.tokens + [Text(text)] else st.tokens;
    var tokens := withText + [Variable(p[m.offset], VariableRegex(route, m), m.name)];
    if InArray(m.name, st.variables) then Err(DuplicateVariable(p, m.name))
    else Ok(ScanState(tokens, st.variables + [m.name], m.end))
  }

  /** The scan loop run over the matches `ms`, as a left fold. */
  function Scan(route: RouteDefinition, ms: seq<Placeholder>, rule: TextRule): (r: Result<ScanState, CompileError>)
    requires Ordered(route.pattern, ms, 0)
    ensures r.Ok? ==> r.value.position == (if |ms| == 0 then 0 else ms[|ms| - 1].end)
  {
    if |ms| == 0 then Ok(ScanState([], [], 0))
    else
      OrderedPrefix(route.pattern, ms, |ms| - 1);
      var prefix := Scan(route, ms[..|ms| - 1], rule);
      if prefix.Err? then prefix else Step(route, prefix.value, ms[|ms| - 1], rule)
  }

  /** The forward token list and the variables, or the naming conflict. */
  function Tokenize(route: RouteDefinition, rule: TextRule): Result<(seq<Token>, seq<string>), CompileError> {
    var p := route.pattern;
    var ms := Placeholders(p, 0);
    var r := Scan(route, ms, rule);
    if r.Err? then Err(r.error)
    else
      var st := r.value;
      Ok((if st.position < |p| then st.tokens + [Text(p[st.position..])] else st.tokens, st.variables))
  }

  // ---------------------------------------------------------------------
  // firstOptional (lines 49-58)
  // ---------------------------------------------------------------------

  /** A variable token with a declared default. */
  predicate IsOptional(route: RouteDefinition, t: Token) {
    t.Variable? && route.HasDefault(t.name)
  }

  /** Start of the run of optional variable tokens that ends at `n`. */
  function OptionalRunStart(route: RouteDefinition, tokens: seq<Token>, n: nat): (k: nat)
    requires n <= |tokens|
    ensures k <= n
    ensures forall i :: k <= i < n ==> IsOptional(route, tokens[i])
    ensures k == 0 || !IsOptional(route, tokens[k - 1])
  {
    if n > 0 && IsOptional(route, tokens[n - 1]) then OptionalRunStart(route, tokens, n - 1) else n
  }

  /**
   * firstOptional; None stands for INF. It is the start of the maximal
   * trailing run of optional variables, and INF when that run is empty.
   */
  function FirstOptional(route: RouteDefinition, tokens: seq<Token>): (fo: Option<nat>)
    ensures fo.None? <==> |tokens| == 0 || !IsOptional(route, tokens[|tokens| - 1])
    ensures fo.Some? ==> fo.value < |tokens|
    ensures fo.Some? ==> forall i :: fo.value <= i < |tokens| ==> IsOptional(route, tokens[i])
    ensures fo.Some? ==> fo.value == 0 || !IsOptional(route, tokens[fo.value - 1])
  {
    var k := OptionalRunStart(route, tokens, |tokens|);
    if k == |tokens| then None else Some(k)
  }

  // ---------------------------------------------------------------------
  // computeRegularExpression (lines 74-97) and the regex (lines 60-68)
  // ---------------------------------------------------------------------

  /** `sep(?P<name>regex)` */
  function VariableCore(sep: char, regex: string, name: string): string {
    Quote([sep]) + "(?P<" + name + ">" + regex + ")"
  }

  function TokenRegex(tokens: seq<Token>, i: nat, fo: Option<nat>): string
    requires i < |tokens|
  {
    match tokens[i]
    case Text(literal) => Quote(literal)
    case Variable(sep, regex, name) =>
      if i == 0 && fo == Some(0) && |tokens| == 1 then
        VariableCore(sep, regex, name) + "?"
      else if fo.Some? && i >= fo.value then
        "(?:" + VariableCore(sep, regex, name)
        + (if i == |tokens| - 1 then Repeat(")?", |tokens| - fo.value) else "")
      else
        VariableCore(sep, regex, name)
  }

  /** The concatenation of the first `k` token regexes. */
  function RegexUpTo(tokens: seq<Token>, k: nat, fo: Option<nat>): string
    requires k <= |tokens|
  {
    if k == 0 then "" else RegexUpTo(tokens, k - 1, fo) + TokenRegex(tokens, k - 1, fo)
  }

  function StaticPrefix(tokens: seq<Token>): string {
    if |tokens| > 0 && tokens[0].Text? then tokens[0].literal else ""
  }

  /** What `compile` returns or throws. */
  function CompileSpec(route: RouteDefinition): Result<CompiledRoute, CompileError> {
    match Tokenize(route, NonEmpty)
    case Err(e) => Err(e)
    case Ok((tokens, variables)) =>
      var fo := FirstOptional(route, tokens);
      Ok(CompiledRoute(route, StaticPrefix(tokens), "#^" + RegexUpTo(tokens, |tokens|, fo) + "$#s",
                       Reverse(tokens), variables))
  }

  // ---------------------------------------------------------------------
  // compile, as the loops of the source
  // ---------------------------------------------------------------------

  /** The scan loop after its first `i` iterations. */
  function ScanPrefix(route: RouteDefinition, ms: seq<Placeholder>, i: nat): Result<ScanState, CompileError>
    requires Ordered(route.pattern, ms, 0) && i <= |ms|
  {
    OrderedPrefix(route.pattern, ms, i);
    Scan(route, ms[..i], NonEmpty)
  }

  /** One more iteration of the scan loop. */
  lemma ScanPrefixNext(route: RouteDefinition, ms: seq<Placeholder>, i: nat)
    requires Ordered(route.pattern, ms, 0) && i < |ms|
    ensures ScanPrefix(route, ms, i).Ok? ==> ScanPrefix(route, ms, i).value.position <= ms[i].offset
    ensures ScanPrefix(route, ms, i + 1) ==
      if ScanPrefix(route, ms, i).Err? then ScanPrefix(route, ms, i)
      else Step(route, ScanPrefix(route, ms, i).value, ms[i], NonEmpty)
  {
    OrderedPrefix(route.pattern, ms, i + 1);
    assert ms[..i + 1][..i] == ms[..i];
  }

  /** Once an iteration has thrown, the whole scan throws the same exception. */
  lemma ScanErrorPersists(route: RouteDefinition, ms: seq<Placeholder>, i: nat)
    requires Ordered(route.pattern, ms, 0) && i <= |ms|
    requires ScanPrefix(route, ms, i).Err?
    ensures Scan(route, ms, NonEmpty) == ScanPrefix(route, ms, i)
    decreases |ms| - i
  {
    if i < |ms| {
      OrderedPrefix(route.pattern, ms, i + 1);
      assert ms[..i + 1][..i] == ms[..i];
      ScanErrorPersists(route, ms, i + 1);
    } else {
      assert ms[..i] == ms;
    }
  }

  /** The regex of one variable: its truthy requirement, or the separator class (lines 22-34). */
  method RequirementRegex(route: RouteDefinition, m: Placeholder) returns (regex: string)
    requires IsPlaceholder(route.pattern, m)
    ensures regex == VariableRegex(route, m)
  {
    var pattern := route.pattern;
    var separators := [pattern[m.offset]];
    var requirement := route.Requirement(m.name);
    if requirement.Some? && Truthy(requirement.value) {
      regex := requirement.value;
    } else {
      if m.end != |pattern| {
        separators := separators + [pattern[m.end]];
      }
      regex := "[^" + Quote(Unique(separators)) + "]+?";
    }
  }

  /** One iteration of the scan loop: the text before the match, if any, then the variable (lines 18-40). */
  method AppendMatch(route: RouteDefinition, st: ScanState, m: Placeholder) returns (tokens: seq<Token>, position: nat)
    requires IsPlaceholder(route.pattern, m) && st.position <= m.offset
    ensures Step(route, st, m, NonEmpty) ==
      if InArray(m.name, st.variables) then Err(DuplicateVariable(route.pattern, m.name))
      else Ok(ScanState(tokens, st.variables + [m.name], position))
  {
    var pattern := route.pattern;
    tokens := st.tokens;
    var text := pattern[st.position..m.offset];
    if text != "" {
      tokens := tokens + [Text(text)];
    }
    position := m.end;
    var regex := RequirementRegex(route, m);
    tokens := tokens + [Variable(pattern[m.offset], regex, m.name)];
  }

  /** The scan loop and the trailing text of `compile` (lines 15-47). */
  method ScanTokens(route: RouteDefinition) returns (r: Result<(seq<Token>, seq<string>), CompileError>)
    ensures r == Tokenize(route, NonEmpty)
  {
    var pattern := route.pattern;
    var length := |pattern|;
    var tokens: seq<Token> := [];
    var variables: seq<string> := [];
    var position: nat := 0;
    var matches := Placeholders(pattern, 0);

    var i := 0;
    while i < |matches|
      invariant 0 <= i <= |matches|
      invariant ScanPrefix(route, matches, i) == Ok(ScanState(tokens, variables, position))
    {
      var m := matches[i];
      ScanPrefixNext(route, matches, i);
      var next, end := AppendMatch(route, ScanState(tokens, variables, position), m);
      if InArray(m.name, variables) {
        ScanErrorPersists(route, matches, i + 1);
        assert matches[..|matches|] == matches;
        return Err(DuplicateVariable(pattern, m.name));
      }
      tokens, position := next, end;
      variables := variables + [m.name];
      i := i + 1;
    }
    assert matches[..i] == matches;
    if position < length {
      tokens := tokens + [Text(pattern[position..])];
    }
    r := Ok((tokens, variables));
  }

  /** The backward search for the first optional variable (lines 49-58). */
  method FindFirstOptional(route: RouteDefinition, tokens: seq<Token>) returns (firstOptional: Option<nat>)
    ensures firstOptional == FirstOptional(route, tokens)
  {
    firstOptional := None;
    var j := |tokens|;
    while j > 0
      invariant 0 <= j <= |tokens|
      invariant OptionalRunStart(route, tokens, |tokens|) == OptionalRunStart(route, tokens, j)
      invariant firstOptional == if j == |tokens| then None else Some(j)
    {
      var token := tokens[j - 1];
      if token.Variable? && route.HasDefault(token.name) {
        firstOptional := Some(j - 1);
      } else {
        break;
      }
      j := j - 1;
    }
  }

  /** The regex loop over the tokens (lines 60-63). */
  method BuildRegex(tokens: seq<Token>, firstOptional: Option<nat>) returns (regex: string)
    ensures regex == RegexUpTo(tokens, |tokens|, firstOptional)
  {
    regex := "";
    for k := 0 to |tokens|
      invariant regex == RegexUpTo(tokens, k, firstOptional)
    {
      regex := regex + TokenRegex(tokens, k, firstOptional);
    }
  }

  /** compile: tokenise, locate the optional tail, build the regex (lines 7-72). */
  method Compile(route: RouteDefinition) returns (r: Result<CompiledRoute, CompileError>)
    ensures r == CompileSpec(route)
  {
    var scanned := ScanTokens(route);
    if scanned.Err? {
      return Err(scanned.error);
    }
    var (tokens, variables) := scanned.value;

    var firstOptional := FindFirstOptional(route, tokens);
    var regex := BuildRegex(tokens, firstOptional);

    var staticPrefix := if |tokens| > 0 && tokens[0].Text? then tokens[0].literal else "";
    r := Ok(CompiledRoute(route, staticPrefix, "#^" + regex + "$#s", Reverse(tokens), variables));
  }

  // ---------------------------------------------------------------------
  // What the compiler guarantees
  // ---------------------------------------------------------------------

  /** A token written back in pattern syntax: text as is, a variable as `sep{name}`. */
  function RenderToken(t: Token): string {
    match t
    case Text(literal) => literal
    case Variable(sep, _, name) => [sep] + "{" + name + "}"
  }

  function Render(tokens: seq<Token>): string {
    if |tokens| == 0 then "" else Render(tokens[..|tokens| - 1]) + RenderToken(tokens[|tokens| - 1])
  }

  /** The variable tokens, in order. */
  function VariableTokens(tokens: seq<Token>): seq<Token> {
    if |tokens| == 0 then []
    else VariableTokens(tokens[..|tokens| - 1]) + (if tokens[|tokens| - 1].Variable? then [tokens[|tokens| - 1]] else [])
  }

  /** The token each placeholder should yield: the character before `{`, the requirement rule, the name. */
  function PlaceholderTokens(route: RouteDefinition, ms: seq<Placeholder>): seq<Token>
    requires forall i :: 0 <= i < |ms| ==> IsPlaceholder(route.pattern, ms[i])
  {
    if |ms| == 0 then []
    else
      var m := ms[|ms| - 1];
      assert IsPlaceholder(route.pattern, m);
      PlaceholderTokens(route, ms[..|ms| - 1]) + [Variable(route.pattern[m.offset], VariableRegex(route, m), m.name)]
  }

  function Names(ms: seq<Placeholder>): (names: seq<string>)
    ensures |names| == |ms| && forall i :: 0 <= i < |ms| ==> names[i] == ms[i].name
  {
    if |ms| == 0 then [] else Names(ms[..|ms| - 1]) + [ms[|ms| - 1].name]
  }

  /** No two names are equal under PHP's loose `==`. */
  predicate LooselyDistinct(names: seq<string>) {
    forall i, j :: 0 <= i < j < |names| ==> !LooseEquals(names[i], names[j])
  }

  predicate NoEmptyText(tokens: seq<Token>) {
    forall i :: 0 <= i < |tokens| ==> tokens[i].Text? ==> tokens[i].literal != ""
  }

  lemma RenderAppend(tokens: seq<Token>, t: Token)
    ensures Render(tokens + [t]) == Render(tokens) + RenderToken(t)
  {
    assert (tokens + [t])[..|tokens|] == tokens;
  }

  lemma VariableTokensAppendText(tokens: seq<Token>, text: string)
    ensures VariableTokens(tokens + [Text(text)]) == VariableTokens(tokens)
  {
    assert (tokens + [Text(text)])[..|tokens|] == tokens;
  }

  lemma VariableTokensAppendVariable(tokens: seq<Token>, t: Token)
    requires t.Variable?
    ensures VariableTokens(tokens + [t]) == VariableTokens(tokens) + [t]
  {
    assert (tokens + [t])[..|tokens|] == tokens;
  }

  /** The scan position never passes the last match, which lies inside the pattern. */
  lemma ScanPositionBefore(route: RouteDefinition, ms: seq<Placeholder>, rule: TextRule)
    requires Ordered(route.pattern, ms, 0) && |ms| > 0
    ensures Scan(route, ms[..|ms| - 1], rule).Ok? ==> Scan(route, ms[..|ms| - 1], rule).value.position <= ms[|ms| - 1].offset
  {
    OrderedPrefix(route.pattern, ms, |ms| - 1);
    if |ms| > 1 {
      assert ms[|ms| - 2].end <= ms[|ms| - 1].offset;
    }
  }

  /** The scan loop succeeds exactly when no name loosely repeats an earlier one, and then lists the names in order. */
  lemma ScanUnfold(route: RouteDefinition, ms: seq<Placeholder>, rule: TextRule)
    requires Ordered(route.pattern, ms, 0) && |ms| > 0
    ensures Scan(route, ms[..|ms| - 1], rule).Err? ==> Scan(route, ms, rule) == Scan(route, ms[..|ms| - 1], rule)
    ensures Scan(route, ms[..|ms| - 1], rule).Ok? ==>
      var st := Scan(route, ms[..|ms| - 1], rule).value;
      var m := ms[|ms| - 1];
      && (Scan(route, ms, rule).Ok? <==> !InArray(m.name, st.variables))
      && (Scan(route, ms, rule).Ok? ==> Scan(route, ms, rule).value.variables == st.variables + [m.name])
  {
    ScanPositionBefore(route, ms, rule);
  }

  lemma {:induction false} ScanNames(route: RouteDefinition, ms: seq<Placeholder>, rule: TextRule)
    requires Ordered(route.pattern, ms, 0)
    ensures Scan(route, ms, rule).Ok? <==> LooselyDistinct(Names(ms))
    ensures Scan(route, ms, rule).Ok? ==> Scan(route, ms, rule).value.variables == Names(ms)
  {
    if |ms| > 0 {
      var init := ms[..|ms| - 1];
      var m := ms[|ms| - 1];
      ScanNames(route, init, rule);
      ScanUnfold(route, ms, rule);
      DistinctSnoc(Names(init), m.name);
    }
  }

  lemma DistinctSnoc(names: seq<string>, x: string)
    ensures LooselyDistinct(names + [x]) <==> LooselyDistinct(names) && !InArray(x, names)
  {
    var s := names + [x];
    if InArray(x, names) {
      var k :| 0 <= k < |names| && LooseEquals(names[k], x);
      assert s[k] == names[k] && s[|names|] == x;
    } else if LooselyDistinct(names) {
      forall i, j | 0 <= i < j < |s| ensures !LooseEquals(s[i], s[j]) {
        if j == |names| {
          assert s[i] == names[i];
        } else {
          assert s[i] == names[i] && s[j] == names[j];
        }
      }
    } else {
      var i, j :| 0 <= i < j < |names| && LooseEquals(names[i], names[j]);
      assert s[i] == names[i] && s[j] == names[j];
    }
  }

  /** What a successful last iteration appended to the tokens. */
  lemma ScanStepTokens(route: RouteDefinition, ms: seq<Placeholder>, rule: TextRule)
    requires Ordered(route.pattern, ms, 0) && |ms| > 0
    ensures Scan(route, ms, rule).Ok? ==>
      && Scan(route, ms[..|ms| - 1], rule).Ok?
      && var st := Scan(route, ms[..|ms| - 1], rule).value;
         var m := ms[|ms| - 1];
         var text := route.pattern[st.position..m.offset];
         && st.position <= m.offset
         && Scan(route, ms, rule).value.position == m.end
         && Scan(route, ms, rule).value.tokens ==
              (if KeepsText(rule, text) then st.tokens + [Text(text)] else st.tokens)
              + [Variable(route.pattern[m.offset], VariableRegex(route, m), m.name)]
  {
    ScanPositionBefore(route, ms, rule);
  }

  /** The scan loop emits one variable token per placeholder, in order. */
  lemma {:induction false} ScanVariableTokens(route: RouteDefinition, ms: seq<Placeholder>, rule: TextRule)
    requires Ordered(route.pattern, ms, 0)
    ensures Scan(route, ms, rule).Ok? ==> VariableTokens(Scan(route, ms, rule).value.tokens) == PlaceholderTokens(route, ms)
  {
    if |ms| > 0 && Scan(route, ms, rule).Ok? {
      var init := ms[..|ms| - 1];
      var m := ms[|ms| - 1];
      ScanVariableTokens(route, init, rule);
      ScanStepTokens(route, ms, rule);
      var st := Scan(route, init, rule).value;
      var text := route.pattern[st.position..m.offset];
      var withText := if KeepsText(rule, text) then st.tokens + [Text(text)] else st.tokens;
      if KeepsText(rule, text) {
        VariableTokensAppendText(st.tokens, text);
      }
      VariableTokensAppendVariable(withText, Variable(route.pattern[m.offset], VariableRegex(route, m), m.name));
    }
  }

  /** One iteration under the intended text rule extends the spelled prefix to the end of the match. */
  lemma RenderStep(p: string, tokens: seq<Token>, position: nat, m: Placeholder, t: Token)
    requires IsPlaceholder(p, m) && position <= m.offset
    requires Render(tokens) == p[..position] && NoEmptyText(tokens)
    requires t.Variable? && t.separator == p[m.offset] && t.name == m.name
    ensures var text := p[position..m.offset];
      var next := (if text != "" then tokens + [Text(text)] else tokens) + [t];
      Render(next) == p[..m.end] && NoEmptyText(next)
  {
    var text := p[position..m.offset];
    var withText := if text != "" then tokens + [Text(text)] else tokens;
    if text != "" {
      RenderAppend(tokens, Text(text));
    }
    SliceSplit(p, position, m.offset);
    RenderAppend(withText, t);
    PlaceholderSpelling(p, m);
    SliceSplit(p, m.offset, m.end);
  }

  /** Under the intended text rule the scanned tokens spell the pattern up to the scan position. */
  lemma {:induction false} ScanRender(route: RouteDefinition, ms: seq<Placeholder>)
    requires Ordered(route.pattern, ms, 0)
    ensures Scan(route, ms, NonEmpty).Ok? ==>
      var st := Scan(route, ms, NonEmpty).value;
      && st.position <= |route.pattern|
      && Render(st.tokens) == route.pattern[..st.position]
      && NoEmptyText(st.tokens)
  {
    if |ms| > 0 && Scan(route, ms, NonEmpty).Ok? {
      var init := ms[..|ms| - 1];
      var m := ms[|ms| - 1];
      ScanRender(route, init);
      ScanStepTokens(route, ms, NonEmpty);
      var st := Scan(route, init, NonEmpty).value;
      RenderStep(route.pattern, st.tokens, st.position, m, Variable(route.pattern[m.offset], VariableRegex(route, m), m.name));
    }
  }

  /** Compilation succeeds exactly when no two placeholder names are loosely equal. */
  lemma CompileSucceedsIffDistinct(route: RouteDefinition)
    ensures var ms := Placeholders(route.pattern, 0);
      CompileSpec(route).Ok? <==> LooselyDistinct(Names(ms))
  {
    ScanNames(route, Placeholders(route.pattern, 0), NonEmpty);
  }

  /**
   * A compiled route lists its variables in declaration order, and its
   * tokens, read back to front, hold one variable token per placeholder with
   * the separator and regex the requirement rule gives.
   */
  lemma CompiledVariables(route: RouteDefinition)
    requires CompileSpec(route).Ok?
    ensures var ms := Placeholders(route.pattern, 0);
      var c := CompileSpec(route).value;
      && c.variables == Names(ms)
      && VariableTokens(Reverse(c.tokens)) == PlaceholderTokens(route, ms)
  {
    var ms := Placeholders(route.pattern, 0);
    ScanNames(route, ms, NonEmpty);
    ScanVariableTokens(route, ms, NonEmpty);
    var (fwd, _) := Tokenize(route, NonEmpty).value;
    ReverseReverse(fwd);
    var st := Scan(route, ms, NonEmpty).value;
    if st.position < |route.pattern| {
      VariableTokensAppendText(st.tokens, route.pattern[st.position..]);
    }
  }

  /** The forward tokens spell the pattern and hold no empty text. */
  lemma TokenizeRender(route: RouteDefinition)
    requires Tokenize(route, NonEmpty).Ok?
    ensures Render(Tokenize(route, NonEmpty).value.0) == route.pattern
    ensures NoEmptyText(Tokenize(route, NonEmpty).value.0)
  {
    var p := route.pattern;
    var ms := Placeholders(p, 0);
    ScanRender(route, ms);
    var st := Scan(route, ms, NonEmpty).value;
    if st.position < |p| {
      AppendTrailingText(st.tokens, p, st.position);
    } else {
      assert p[..st.position] == p;
    }
  }

  /** The text after the last placeholder completes the rendering without adding an empty text. */
  lemma AppendTrailingText(tokens: seq<Token>, p: string, position: nat)
    requires position < |p|
    requires Render(tokens) == p[..position] && NoEmptyText(tokens)
    ensures Render(tokens + [Text(p[position..])]) == p
    ensures NoEmptyText(tokens + [Text(p[position..])])
  {
    RenderAppend(tokens, Text(p[position..]));
    SliceSplit(p, position, |p|);
    assert p[..|p|] == p;
  }

  /**
   * Reading the stored tokens back to front and writing each in pattern
   * syntax gives the pattern back, and no text token is empty.
   */
  lemma CompiledTokensRebuildPattern(route: RouteDefinition)
    requires CompileSpec(route).Ok?
    ensures Render(Reverse(CompileSpec(route).value.tokens)) == route.pattern
    ensures NoEmptyText(Reverse(CompileSpec(route).value.tokens))
  {
    TokenizeRender(route);
    ReverseReverse(Tokenize(route, NonEmpty).value.0);
  }

  /** The static prefix is where the pattern starts. */
  lemma StaticPrefixStartsPattern(route: RouteDefinition)
    requires CompileSpec(route).Ok?
    ensures StartsWith(route.pattern, CompileSpec(route).value.staticPrefix)
  {
    var fwd := Tokenize(route, NonEmpty).value.0;
    TokenizeRender(route);
    if |fwd| > 0 && fwd[0].Text? {
      RenderStartsWithFirst(fwd);
    }
  }

  lemma {:induction false} RenderStartsWithFirst(tokens: seq<Token>)
    requires |tokens| > 0
    ensures |RenderToken(tokens[0])| <= |Render(tokens)|
    ensures Render(tokens)[..|RenderToken(tokens[0])|] == RenderToken(tokens[0])
  {
    if |tokens| > 1 {
      var init := tokens[..|tokens| - 1];
      RenderStartsWithFirst(init);
      assert init[0] == tokens[0];
    }
  }

  predicate EndsWith(s: string, suffix: string) {
    |suffix| <= |s| && s[|s| - |suffix|..] == suffix
  }

  /**
   * Piece `i` of the regex opens a non-capturing group exactly when it is at
   * or after firstOptional and the route has more than one token.
   */
  lemma PieceOpensGroup(route: RouteDefinition, tokens: seq<Token>, i: nat)
    requires i < |tokens|
    ensures var fo := FirstOptional(route, tokens);
      StartsWith(TokenRegex(tokens, i, fo), "(?:") <==> fo.Some? && i >= fo.value && |tokens| > 1
  {
    var fo := FirstOptional(route, tokens);
    var piece := TokenRegex(tokens, i, fo);
    match tokens[i]
    case Text(literal) =>
      assert !(fo.Some? && i >= fo.value);
      if |literal| > 0 {
        assert piece[0] != '(';
      }
    case Variable(sep, regex, name) =>
      var core := VariableCore(sep, regex, name);
      assert core[0] != '(' by {
        assert core == Quote([sep]) + ("(?P<" + name + ">" + regex + ")");
      }
      if fo.Some? && i >= fo.value && |tokens| > 1 {
        assert piece[..3] == "(?:";
      } else {
        assert piece[0] == core[0];
      }
  }

  /** The last piece closes all `|tokens| - firstOptional` groups, so the groups balance. */
  lemma LastPieceClosesGroups(route: RouteDefinition, tokens: seq<Token>)
    ensures var fo := FirstOptional(route, tokens);
      fo.Some? && |tokens| > 1 ==> EndsWith(TokenRegex(tokens, |tokens| - 1, fo), Repeat(")?", |tokens| - fo.value))
  {
    var fo := FirstOptional(route, tokens);
    if fo.Some? && |tokens| > 1 {
      var n := |tokens|;
      match tokens[n - 1]
      case Variable(sep, regex, name) =>
        var piece := TokenRegex(tokens, n - 1, fo);
        var closing := Repeat(")?", n - fo.value);
        assert piece == "(?:" + VariableCore(sep, regex, name) + closing;
        assert piece[|piece| - |closing|..] == closing;
    }
  }

  /** A pattern that is one placeholder yields one variable token. */
  lemma SinglePlaceholderTokens(route: RouteDefinition, sep: char, name: string)
    requires route.pattern == [sep] + "{" + name + "}"
    requires sep != '\n' && |name| >= 1 && forall i :: 0 <= i < |name| ==> IsWordChar(name[i])
    ensures var m := Placeholder(0, name, |route.pattern|);
      && IsPlaceholder(route.pattern, m)
      && Tokenize(route, NonEmpty) == Ok(([Variable(sep, VariableRegex(route, m), name)], [name]))
  {
    var p := route.pattern;
    var m := Placeholder(0, name, |p|);
    assert p == [sep] + ("{" + name + "}");
    assert p[1..|p|] == "{" + name + "}";
    assert IsPlaceholder(p, m);
    assert PlaceholderAt(p, 0) == Some(m);
    assert Placeholders(p, 0) == [m];
    var ms := [m];
    assert ms[..0] == [];
    assert Scan(route, ms[..0], NonEmpty) == Ok(ScanState([], [], 0));
    ScanUnfold(route, ms, NonEmpty);
    ScanStepTokens(route, ms, NonEmpty);
    assert p[0..0] == "";
    var st := Scan(route, ms, NonEmpty).value;
    assert st.tokens == [Variable(sep, VariableRegex(route, m), name)];
    assert st.position == |p|;
    assert st.variables == [name];
  }

  /** A pattern that is one optional placeholder compiles to `sep(?P<name>regex)?` with no group around it. */
  lemma SingleOptionalVariable(route: RouteDefinition, sep: char, name: string)
    requires route.pattern == [sep] + "{" + name + "}"
    requires sep != '\n' && |name| >= 1 && forall i :: 0 <= i < |name| ==> IsWordChar(name[i])
    requires name in route.defaults
    ensures var m := Placeholder(0, name, |route.pattern|);
      && IsPlaceholder(route.pattern, m)
      && CompileSpec(route).Ok?
      && CompileSpec(route).value.regex == "#^" + (VariableCore(sep, VariableRegex(route, m), name) + "?") + "$#s"
  {
    SinglePlaceholderTokens(route, sep, name);
    var m := Placeholder(0, name, |route.pattern|);
    var t := Variable(sep, VariableRegex(route, m), name);
    assert FirstOptional(route, [t]) == Some(0);
    assert RegexUpTo([t], 1, Some(0)) == VariableCore(sep, VariableRegex(route, m), name) + "?";
  }

  /** The placeholders of `/{a}0/{b}`, with the run "0" between them. */
  lemma ZeroExamplePlaceholders()
    ensures var p := "/{a}0/{b}";
      && Placeholders(p, 0) == [Placeholder(0, "a", 4), Placeholder(5, "b", 9)]
      && p[4..5] == "0"
  {
    var p := "/{a}0/{b}";
    var m1 := Placeholder(0, "a", 4);
    var m2 := Placeholder(5, "b", 9);
    assert p[1..4] == "{a}";
    assert p[6..9] == "{b}";
    assert IsPlaceholder(p, m1) && IsPlaceholder(p, m2);
    assert PlaceholderAt(p, 0) == Some(m1);
    assert PlaceholderAt(p, 5) == Some(m2);
    assert Placeholders(p, 4) == Placeholders(p, 5) == [m2];
  }

  /**
   * As written, line 18 drops a text run that is exactly "0": the step's
   * tokens then spell the pattern with that run left out, so the compiled
   * regex no longer requires it. `/{a}0/{b}` has such a run.
   */
  lemma StepDropsZeroText(route: RouteDefinition, st: ScanState, m: Placeholder)
    requires IsPlaceholder(route.pattern, m) && st.position <= m.offset
    requires route.pattern[st.position..m.offset] == "0" && !InArray(m.name, st.variables)
    ensures Step(route, st, m, PhpTruthiness).Ok? && Step(route, st, m, NonEmpty).Ok?
    ensures var t := Variable(route.pattern[m.offset], VariableRegex(route, m), m.name);
      && Render(Step(route, st, m, PhpTruthiness).value.tokens) == Render(st.tokens) + RenderToken(t)
      && Render(Step(route, st, m, NonEmpty).value.tokens) == Render(st.tokens) + "0" + RenderToken(t)
  {
    var t := Variable(route.pattern[m.offset], VariableRegex(route, m), m.name);
    RenderAppend(st.tokens, t);
    RenderAppend(st.tokens, Text("0"));
    RenderAppend(st.tokens + [Text("0")], t);
  }

  /** With the intended rule the same pattern keeps its `0`. */
  lemma ZeroTextRunKept()
    ensures var route := RouteDefinition("/{a}0/{b}", map[], map[], map[]);
      && CompileSpec(route).Ok?
      && Render(Reverse(CompileSpec(route).value.tokens)) == "/{a}0/{b}"
  {
    var route := RouteDefinition("/{a}0/{b}", map[], map[], map[]);
    ZeroExamplePlaceholders();
    ScanNames(route, Placeholders(route.pattern, 0), NonEmpty);
    ZeroExampleNamesDistinct();
    CompiledTokensRebuildPattern(route);
  }

  /** `a` and `b` are not numeric, so they are loosely distinct. */
  lemma ZeroExampleNamesDistinct()
    ensures Names([Placeholder(0, "a", 4), Placeholder(5, "b", 9)]) == ["a", "b"]
    ensures LooselyDistinct(["a", "b"])
  {
    assert IntegerNumeric("a").None? by {
      TrimUnchanged("a", NumericSpace);
    }
  }

  /** The two placeholders of `/{1}/{01}`. */
  lemma LooseExamplePlaceholders()
    ensures Placeholders("/{1}/{01}", 0) == [Placeholder(0, "1", 4), Placeholder(4, "01", 9)]
  {
    var p := "/{1}/{01}";
    var m1 := Placeholder(0, "1", 4);
    var m2 := Placeholder(4, "01", 9);
    assert p[1..4] == "{1}";
    assert p[5..9] == "{01}";
    assert IsPlaceholder(p, m1) && IsPlaceholder(p, m2);
    assert PlaceholderAt(p, 0) == Some(m1);
    assert PlaceholderAt(p, 4) == Some(m2);
    assert Placeholders(p, 4) == [m2];
  }

  /**
   * `1` and `01` are loosely equal, so in_array refuses the second
   * placeholder of `/{1}/{01}` and compile throws the duplicate-variable
   * error.
   */
  lemma LooselyEqualNamesRefused()
    ensures var route := RouteDefinition("/{1}/{01}", map[], map[], map[]);
      CompileSpec(route) == Err(DuplicateVariable("/{1}/{01}", "01"))
  {
    var route := RouteDefinition("/{1}/{01}", map[], map[], map[]);
    LooseExamplePlaceholders();
    LooseExampleScan(route);
  }

  lemma LooseExampleScan(route: RouteDefinition)
    requires route.pattern == "/{1}/{01}"
    requires Ordered(route.pattern, [Placeholder(0, "1", 4), Placeholder(4, "01", 9)], 0)
    ensures Scan(route, [Placeholder(0, "1", 4), Placeholder(4, "01", 9)], NonEmpty) == Err(DuplicateVariable("/{1}/{01}", "01"))
  {
    var m1 := Placeholder(0, "1", 4);
    var m2 := Placeholder(4, "01", 9);
    var ms := [m1, m2];
    assert ms[..1] == [m1];
    OrderedPrefix(route.pattern, ms, 1);
    assert [m1][..0] == [];
    assert Scan(route, [], NonEmpty) == Ok(ScanState([], [], 0));
    ScanUnfold(route, [m1], NonEmpty);
    var st := Scan(route, [m1], NonEmpty).value;
    assert st.variables == ["1"];
    OneDeclaresZeroOne();
    assert Scan(route, ms, NonEmpty) == Step(route, st, m2, NonEmpty);
  }

  /** Once `1` is declared, in_array finds `01`. */
  lemma OneDeclaresZeroOne()
    ensures InArray("01", ["1"])
  {
    LooseEqualsExamples();
    assert LooseEquals(["1"][0], "01");
  }
}
