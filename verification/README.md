# Ignite core, modelled in Dafny

This project models the core of the Ignite framework (fuse-framework), a small
PHP web framework, and proves properties of that model. It covers five parts:

- **Routing**:
  - the route compiler, which turns a pattern such as `/blog/{page}` into tokens, a static prefix and a regular expression;
  - the compiled route record;
  - the tree of route collections, with nested collections, prefixes and unique names;
  - the URL matcher, which walks that tree for a path and a request method;
  - the URL generator, which writes a URL back from a route name and parameters;
  - the request context;
  - the method-not-allowed error;
  - the simple `Route`/`Router` pair.
- **Http**:
  - the parameter, header and server containers, including the Cache-Control header and HTTP Basic credentials (base64);
  - the session, with its save/start/close cycle;
  - files and uploaded files;
  - the MIME type guesser chain.
- **Container**:
  - the parameter collection, with `%name%` references, `%%` escapes and resolution;
  - its not-found exception;
  - `Util::arrayWrap`.
- **Config**: the loader resolver and loaders.
- **Foundation**: the application's path helpers and path bindings.

Each PHP class whose methods update its fields is a Dafny `class`. Its fields
are `seq`/`map` values that the methods reassign, under `modifies` clauses.
Each method is proved against a specification function, and the properties of
the framework are lemmas about those functions. The following are modelled on
values, as datatypes and functions:

- the pure parts: the tokeniser, the regular expression builder, encodings, the header-value parser and the message builders;
- the route tree.

PHP strings are byte strings. Here they are `seq<char>`, and the encoding
lemmas assume characters below 256. PHP truthiness (`""` and `"0"` are false)
is written out as `Strings.Truthy` wherever the code branches on a string,
PHP 8's loose `==` between strings is `Strings.LooseEquals`, and `in_array`
without its strict flag is `Strings.InArray`.
Ordered PHP arrays are `OrderedMaps.OrderedMap` sequences of key/value pairs.

Three things are parameters of the model, not part of it:

- regular-expression matching of the requirement sub-patterns;
- the file system;
- the PHP session engine.

## Model

| member | source | states |
|---|---|---|
| RouteCompiler.PlaceholderAt | src/Ignite/Routing/RouteCompiler.php:15 | the placeholder match at an offset is the only `sep{name}` spelling starting there, or none |
| RouteCompiler.Placeholders | src/Ignite/Routing/RouteCompiler.php:15 | preg_match_all's matches are ordered, non-overlapping placeholder matches inside the pattern |
| RouteCompiler.PlaceholderSpelling | src/Ignite/Routing/RouteCompiler.php:15 | a placeholder match spells its separator, `{`, its name and `}` |
| RouteCompiler.PlaceholderChars | src/Ignite/Routing/RouteCompiler.php:15 | the characters between the braces of a match are word characters and form the variable's name |
| RouteCompiler.RequirementRegex | src/Ignite/Routing/RouteCompiler.php:22-34 | a variable's regex is its truthy requirement, else the class excluding the separator |
| RouteCompiler.AppendMatch | src/Ignite/Routing/RouteCompiler.php:18-40 | one loop iteration throws when the name is loosely `in_array` among the declared ones (`01` after `1`), and otherwise appends the text before the match, the variable token and the name |
| RouteCompiler.ScanPrefixNext | src/Ignite/Routing/RouteCompiler.php:17-43 | one more iteration extends the scan by one step, and a thrown scan stays thrown |
| RouteCompiler.ScanErrorPersists | src/Ignite/Routing/RouteCompiler.php:38-40 | once an iteration throws the duplicate-variable exception, compile throws that same exception |
| RouteCompiler.ScanUnfold | src/Ignite/Routing/RouteCompiler.php:17-43 | the last iteration succeeds exactly when its name is not loosely `in_array` among the earlier names, and then adds that name |
| RouteCompiler.ScanNames | src/Ignite/Routing/RouteCompiler.php:38-42 | the scan succeeds iff no two placeholder names are loosely equal, and then lists them in order |
| RouteCompiler.ScanPositionBefore | src/Ignite/Routing/RouteCompiler.php:17-43 | the scan position never passes the next match |
| RouteCompiler.ScanVariableTokens | src/Ignite/Routing/RouteCompiler.php:36 | the scan emits one variable token per placeholder, in order, with its separator, regex and name |
| RouteCompiler.ScanRender | src/Ignite/Routing/RouteCompiler.php:17-43 | under the intended text rule the tokens spell the pattern up to the scan position, with no empty text |
| RouteCompiler.ScanTokens | src/Ignite/Routing/RouteCompiler.php:15-47 | the scan loop plus the trailing text equal the tokeniser specification, including the duplicate-variable error of the loose `in_array` |
| RouteCompiler.TokenizeRender | src/Ignite/Routing/RouteCompiler.php:15-47 | the forward tokens spell the whole pattern and hold no empty text token |
| RouteCompiler.AppendTrailingText | src/Ignite/Routing/RouteCompiler.php:45-47 | the text after the last placeholder completes the spelling without adding an empty text |
| RouteCompiler.SinglePlaceholderTokens | src/Ignite/Routing/RouteCompiler.php:15-47 | a pattern that is one placeholder tokenises to one variable token and one name |
| RouteCompiler.FirstOptional | src/Ignite/Routing/RouteCompiler.php:49-58 | firstOptional is the start of the maximal trailing run of variables with defaults, and INF when that run is empty |
| RouteCompiler.FindFirstOptional | src/Ignite/Routing/RouteCompiler.php:49-58 | the backward loop computes firstOptional |
| RouteCompiler.BuildRegex | src/Ignite/Routing/RouteCompiler.php:60-63 | the loop concatenates each token's regex piece |
| RouteCompiler.PieceOpensGroup | src/Ignite/Routing/RouteCompiler.php:84-88 | a token's piece opens a `(?:` group exactly when it is at or after firstOptional and there is more than one token |
| RouteCompiler.LastPieceClosesGroups | src/Ignite/Routing/RouteCompiler.php:89-91 | the last piece closes one `)?` per opened group, so the groups balance |
| RouteCompiler.SingleOptionalVariable | src/Ignite/Routing/RouteCompiler.php:81-82 | a lone optional placeholder compiles to `#^sep(?P<name>regex)?$#s` with no surrounding group |
| RouteCompiler.Compile | src/Ignite/Routing/RouteCompiler.php:7-72 | compile equals the compile specification: tokens reversed, the static prefix, the anchored regex and the variables |
| RouteCompiler.CompileSucceedsIffDistinct | src/Ignite/Routing/RouteCompiler.php:7-72 | compiling succeeds exactly when no two placeholder names are loosely equal, so `/{1}/{01}` is refused |
| RouteCompiler.LooseExamplePlaceholders | src/Ignite/Routing/RouteCompiler.php:15 | example: `/{1}/{01}` has the placeholders `1` and `01` |
| RouteCompiler.LooselyEqualNamesRefused | src/Ignite/Routing/RouteCompiler.php:38-39 | example: compiling `/{1}/{01}` throws the duplicate-variable error for `01` |
| RouteCompiler.CompiledVariables | src/Ignite/Routing/RouteCompiler.php:36-69 | the compiled variables are the placeholder names in order; the reversed tokens hold one variable per placeholder |
| RouteCompiler.CompiledTokensRebuildPattern | src/Ignite/Routing/RouteCompiler.php:15-69 | the stored tokens read back to front spell the pattern, with no empty text |
| RouteCompiler.StaticPrefixStartsPattern | src/Ignite/Routing/RouteCompiler.php:67 | the static prefix is a prefix of the pattern |
| RouteCompiler.ZeroExamplePlaceholders | src/Ignite/Routing/RouteCompiler.php:15 | the placeholders of `/{a}0/{b}` are `/{a}` and `/{b}`, with the text "0" between them |
| RouteCompiler.StepDropsZeroText | src/Ignite/Routing/RouteCompiler.php:18 | as written, a text run "0" between placeholders is dropped from the tokens; the intended rule keeps it |
| RouteCompiler.ZeroTextRunKept | src/Ignite/Routing/RouteCompiler.php:18 | with the intended rule, `/{a}0/{b}` compiles and its tokens spell the pattern back |
| CompiledRoutes.GettersReturnConstructorArguments | src/Ignite/Routing/CompiledRoute.php:19-71 | every getter returns the part the record was built with, and the pattern, defaults, requirements and options of its route |
| RouteCollections.RouteCollection.constructor | src/Ignite/Routing/RouteCollection.php:16-21 | a new collection has no prefix and no routes |
| RouteCollections.RouteCollection.Add | src/Ignite/Routing/RouteCollection.php:48-65 | a name outside `[a-zA-Z0-9_.]+` is refused with nothing changed; otherwise the name is removed from the whole tree and the route appended to the chosen collection, keeping names unique |
| RouteCollections.NameWithTrailingNewlineAccepted | src/Ignite/Routing/RouteCollection.php:50 | as written, `home\n` passes the name check because `$` also matches before a final newline |
| RouteCollections.ValidNameCorrected | src/Ignite/Routing/RouteCollection.php:50 | the written and the intended name checks differ exactly on valid names followed by one newline |
| RouteCollections.AddSpecFacts | src/Ignite/Routing/RouteCollection.php:54-64 | after add the name occurs once in the flattened tree, at the new route's place, and every other route keeps its order |
| RouteCollections.AddStep | src/Ignite/Routing/RouteCollection.php:54-64 | add is remove followed by an append at the collection's place, and keeps names unique |
| RouteCollections.AddKeepsUniqueNames | src/Ignite/Routing/RouteCollection.php:48-65 | add keeps every name unique across the tree and binds the name to the new route |
| RouteCollections.GetAfterAdd | src/Ignite/Routing/RouteCollection.php:48-97 | after add, get returns the route just added |
| RouteCollections.TargetAppendAt | src/Ignite/Routing/RouteCollection.php:64 | appending at a collection's place appends to that collection only |
| RouteCollections.FlattenAppendAt | src/Ignite/Routing/RouteCollection.php:64 | a route appended anywhere in the tree is inserted exactly once into the flattened routes |
| RouteCollections.RouteCollection.Remove | src/Ignite/Routing/RouteCollection.php:104-115 | remove drops the name from this collection and from every nested one, and keeps names unique |
| RouteCollections.RemoveNameFlatten | src/Ignite/Routing/RouteCollection.php:104-115 | remove deletes every pair with that name from the flattened routes and keeps the others in order |
| RouteCollections.KidsRemove | src/Ignite/Routing/RouteCollection.php:110-114 | remove keeps every nested collection in place, with the name removed from it |
| RouteCollections.FlattenReplaceKid | src/Ignite/Routing/RouteCollection.php:110-114 | replacing one nested collection replaces exactly its block of the flattened routes |
| RouteCollections.RemoveKeepsUniqueNames | src/Ignite/Routing/RouteCollection.php:104-115 | remove keeps names unique and takes away exactly the removed name |
| RouteCollections.RouteCollection.All | src/Ignite/Routing/RouteCollection.php:67-80 | all lists every route of the tree by name, in first-added order, the last value for each name, and agrees with get |
| RouteCollections.AllOf | src/Ignite/Routing/RouteCollection.php:67-80 | the recursive merge of all() is the ordered merge of the flattened routes |
| RouteCollections.AllAgreesWithGet | src/Ignite/Routing/RouteCollection.php:67-97 | with unique names, all() and get agree on every name |
| RouteCollections.RouteCollection.Get | src/Ignite/Routing/RouteCollection.php:82-97 | get finds a route exactly for the names of the tree, returns one bound to that name, and with unique names the only one |
| RouteCollections.GetRouteFacts | src/Ignite/Routing/RouteCollection.php:82-97 | get succeeds exactly for the names of the tree, and its result is bound to the name there |
| RouteCollections.GetUnique | src/Ignite/Routing/RouteCollection.php:82-97 | with unique names, get returns the one route bound to the name |
| RouteCollections.RouteCollection.AddCollection | src/Ignite/Routing/RouteCollection.php:117-128 | the child is prefixed, every name it holds is removed from the tree below this collection, the child is appended, and names stay unique within that tree |
| RouteCollections.RemoveNamesFlatten | src/Ignite/Routing/RouteCollection.php:122-124 | removing a list of names removes each from the flattened routes |
| RouteCollections.AddCollectionKeepsUniqueNames | src/Ignite/Routing/RouteCollection.php:117-128 | after addCollection the flattened routes are this tree's other routes followed by the child's, and names are unique within the tree below this collection |
| RouteCollections.RouteCollection.AddPrefix | src/Ignite/Routing/RouteCollection.php:130-152 | the normalised prefix is prepended to this collection's prefix and to every route pattern of the tree |
| RouteCollections.LeadingSlashDoubled | src/Ignite/Routing/RouteCollection.php:139 | as written, `/blog` becomes `//blog` and `blog/posts` gets no leading slash |
| RouteCollections.NormalizePrefixShape | src/Ignite/Routing/RouteCollection.php:133-141 | the intended prefix is empty iff the trimmed input is falsy, and otherwise starts with exactly one added slash and has no trailing slash |
| RouteCollections.NormalizePrefixIdempotent | src/Ignite/Routing/RouteCollection.php:133-141 | normalising a normalised prefix changes nothing |
| RouteCollections.PrefixTreeFlatten | src/Ignite/Routing/RouteCollection.php:145-151 | addPrefix prepends the prefix to every route pattern and keeps names and order |
| RouteCollections.PrefixTreeKids | src/Ignite/Routing/RouteCollection.php:145-151 | addPrefix prepends the prefix to every nested collection's prefix |
| RouteCollections.PrefixTreeEmpty | src/Ignite/Routing/RouteCollection.php:135-137 | an empty prefix changes nothing |
| RouteCollections.PrefixKeepsNames | src/Ignite/Routing/RouteCollection.php:130-152 | addPrefix changes no name |
| RouteRegex.ForwardTokensOfCompile | src/Ignite/Routing/RouteCompiler.php:67-69 | the stored tokens reversed are the scanned tokens, and the static prefix is the first of them when it is text |
| RouteRegex.MatchStartsWithStaticPrefix | src/Ignite/Routing/RouteCompiler.php:74-97 | no alternative of the built regex can skip a leading text token: every match starts with the static prefix |
| RouteRegex.RegexMatchStartsWithStaticPrefix | src/Ignite/Routing/Matcher/UrlMatcher.php:85-89 | a compiled route's regex matches only paths that start with its static prefix |
| RouteRegex.CapturedNames | src/Ignite/Routing/Matcher/UrlMatcher.php:89 | every named capture of a match is the name of one of the route's variable tokens |
| RouteRegex.TextRouteMatches | src/Ignite/Routing/RouteCompiler.php:68 | a route without variables matches its literal path, or that path followed by one newline (the `$` anchor), and nothing else |
| UrlEncoding.RawUrlEncode | src/Ignite/Routing/Generator/UrlGenerator.php:134 | rawurlencode writes only unreserved characters and `%`, and every `%` it writes is followed by two hexadecimal digits |
| UrlEncoding.EncodePath | src/Ignite/Routing/Generator/UrlGenerator.php:134 | the generator's encoding writes only unreserved characters, `/` and `%`, and every `%` it writes is followed by two hexadecimal digits |
| UrlEncoding.RawUrlDecodeEncode | src/Ignite/Routing/Matcher/UrlMatcher.php:117-121 | rawurldecode undoes rawurlencode on byte strings |
| UrlEncoding.UrlDecodeEncode | src/Ignite/Routing/Matcher/UrlMatcher.php:65 | urldecode also undoes rawurlencode, since `+` and space are always escaped |
| UrlEncoding.KeepSlashesEncode | src/Ignite/Routing/Generator/UrlGenerator.php:134 | replacing `%2F` by `/` after rawurlencode is the same as never escaping `/` |
| UrlEncoding.EscapeNotSlash | src/Ignite/Routing/Generator/UrlGenerator.php:17-19 | only `/` itself is escaped as `%2F`, so the replacement touches nothing else |
| UrlEncoding.FormEncode | src/Ignite/Routing/Generator/UrlGenerator.php:151 | urlencode, as http_build_query applies it, writes only safe characters, `+` and `%`, and every `%` it writes is followed by two hexadecimal digits |
| UrlEncoding.UrlDecodeFormEncode | src/Ignite/Routing/Generator/UrlGenerator.php:151 | urldecode undoes urlencode on byte strings |
| UrlEncoding.RawUrlDecodeEncodePath | src/Ignite/Routing/Generator/UrlGenerator.php:134 | rawurldecode undoes the generator's encoding of a byte string |
| UrlMatching.UrlMatcher.constructor | src/Ignite/Routing/Matcher/UrlMatcher.php:22-26 | the matcher keeps the routes and the context, and starts with an empty allow list |
| UrlMatching.UrlMatcher.SetContext | src/Ignite/Routing/Matcher/UrlMatcher.php:28-31 | setContext replaces the context |
| UrlMatching.UrlMatcher.Match | src/Ignite/Routing/Matcher/UrlMatcher.php:48-61 | match equals the match specification: the route's parameters, MethodNotAllowed with the collected methods, or ResourceNotFound |
| UrlMatching.MatchSpec | src/Ignite/Routing/Matcher/UrlMatcher.php:48-61 | a MethodNotAllowed error always carries a non-empty list of distinct methods |
| UrlMatching.AllowedListFacts | src/Ignite/Routing/Matcher/UrlMatcher.php:58-60 | the methods reported are the upper-cased allowed methods, without duplicates, and not empty |
| UrlMatching.UrlMatcher.MatchCollection | src/Ignite/Routing/Matcher/UrlMatcher.php:63-111 | the loop over a collection equals the walk specification, on the urldecoded path, and leaves the collected methods in the allow list |
| UrlMatching.UrlMatcher.MatchEntry | src/Ignite/Routing/Matcher/UrlMatcher.php:67-108 | one iteration, on a nested collection or a route, equals one step of the walk |
| UrlMatching.UrlMatcher.MatchRoute | src/Ignite/Routing/Matcher/UrlMatcher.php:83-108 | the checks on one route equal the route verdict: skip, reject with its methods when the method is not loosely `in_array` among them, or accept with parameters |
| UrlMatching.WalkConcat | src/Ignite/Routing/Matcher/UrlMatcher.php:67-110 | walking two lists of entries is walking the first and, when nothing matched, the second with the methods collected so far |
| UrlMatching.WalkFrom | src/Ignite/Routing/Matcher/UrlMatcher.php:67-110 | the walk from entry i is one step, then the walk from entry i + 1 unless the step matched |
| UrlMatching.PrefixRulesOutCollection | src/Ignite/Routing/Matcher/UrlMatcher.php:69-71 | a nested collection whose literal prefix the path does not start with is skipped entirely |
| UrlMatching.RejectContinues | src/Ignite/Routing/Matcher/UrlMatcher.php:102-106 | a route whose method requirement rejects the request adds its methods and the walk goes on |
| UrlMatching.HeadIsGet | src/Ignite/Routing/Matcher/UrlMatcher.php:98-100 | a HEAD request walks exactly as a GET request |
| UrlMatching.MatchesArrayNames | src/Ignite/Routing/Matcher/UrlMatcher.php:89 | the named keys of preg_match's array are exactly the capture names |
| UrlMatching.MergeDefaultsSpec | src/Ignite/Routing/Matcher/UrlMatcher.php:113-124 | mergeDefaults holds the defaults and every named capture, a capture rawurldecoded and winning over its default, and nothing else |
| UrlMatching.RouteParameters | src/Ignite/Routing/Matcher/UrlMatcher.php:109 | the merged parameters plus `_route` name the route, and otherwise hold exactly the defaults and the captures |
| UrlMatching.AcceptedParameters | src/Ignite/Routing/Matcher/UrlMatcher.php:89-109 | an accepted route's parameters are its `_route` name, its decoded captures and its other defaults |
| UrlMatching.AcceptedKeys | src/Ignite/Routing/Matcher/UrlMatcher.php:109 | every key of an accepted route's parameters is `_route`, a default or a variable of the route |
| UrlMatching.PrefixCheckAsWrittenLosesMatch | src/Ignite/Routing/Matcher/UrlMatcher.php:85 | as written, the check skips `/page/{n}` for `/page/1` although its regex matches |
| UrlMatching.PrefixCheckNeverLosesMatch | src/Ignite/Routing/Matcher/UrlMatcher.php:85 | the intended static-prefix check never skips a route whose regex matches the path |
| UrlGenerating.UrlGenerator.constructor | src/Ignite/Routing/Generator/UrlGenerator.php:30-35 | the generator keeps the routes and the context, with an empty compile cache |
| UrlGenerating.UrlGenerator.SetContext | src/Ignite/Routing/Generator/UrlGenerator.php:44-47 | setContext replaces the context |
| UrlGenerating.UrlGenerator.Generate | src/Ignite/Routing/Generator/UrlGenerator.php:70-83 | an unknown name gives RouteNotFound; a route is compiled once and cached; the URL is doGenerate's for the cached compilation |
| UrlGenerating.UrlGenerator.DoGenerate | src/Ignite/Routing/Generator/UrlGenerator.php:99-181 | doGenerate equals the generation specification |
| UrlGenerating.UrlGenerator.WalkTokens | src/Ignite/Routing/Generator/UrlGenerator.php:112-143 | the token loop equals the walk over the stored tokens |
| UrlGenerating.UrlGenerator.MakeAbsolute | src/Ignite/Routing/Generator/UrlGenerator.php:157-178 | the base URL is prepended, then scheme, host and port when the URL must be absolute |
| UrlGenerating.ToValues | src/Ignite/Routing/Generator/UrlGenerator.php:103 | the caller's array as a map holds exactly its keys |
| UrlGenerating.ToValuesLookup | src/Ignite/Routing/Generator/UrlGenerator.php:103 | in a well-formed array a key's value is its pair's value |
| UrlGenerating.Replace | src/Ignite/Routing/Generator/UrlGenerator.php:104-105 | array_replace holds both key sets, and a key of the second array takes its value from it |
| UrlGenerating.DefaultValues | src/Ignite/Routing/Generator/UrlGenerator.php:105 | the route defaults as values hold the same keys and values |
| UrlGenerating.Precedence | src/Ignite/Routing/Generator/UrlGenerator.php:103-105 | a caller's value beats the context's, which beats the route default, and every other key is absent |
| UrlGenerating.Missing | src/Ignite/Routing/Generator/UrlGenerator.php:108 | the missing list holds exactly the variables without a value |
| UrlGenerating.MissingParameters | src/Ignite/Routing/Generator/UrlGenerator.php:107-110 | generation fails for missing parameters exactly when a variable has no value from the caller, the context or the defaults, and it names exactly those |
| UrlGenerating.WalkErrors | src/Ignite/Routing/Generator/UrlGenerator.php:115-143 | the token walk fails only with InvalidParameter |
| UrlGenerating.WalkFails | src/Ignite/Routing/Generator/UrlGenerator.php:128-130 | an invalid parameter at one token ends the walk with that error |
| UrlGenerating.ErrorPersists | src/Ignite/Routing/Generator/UrlGenerator.php:128-130 | once the walk has failed, later tokens keep the same error |
| UrlGenerating.StepRendered | src/Ignite/Routing/Generator/UrlGenerator.php:133-141 | after a token has rendered, every further step writes its piece in front of the URL |
| UrlGenerating.RenderedStep | src/Ignite/Routing/Generator/UrlGenerator.php:133-141 | one more step keeps the URL equal to the pieces written so far followed by the suffix |
| UrlGenerating.RenderedPrefix | src/Ignite/Routing/Generator/UrlGenerator.php:115-143 | once a token has rendered, every token before it in the pattern renders too |
| UrlGenerating.DefaultTailOmitted | src/Ignite/Routing/Generator/UrlGenerator.php:122-138 | trailing variables left at their defaults are omitted as long as nothing after them rendered |
| UrlGenerating.TrailingDefaultAsWritten | src/Ignite/Routing/Generator/UrlGenerator.php:123 | as written, `/blog/{page}` with default page 1 writes `/blog/1`; the intended test writes `/blog` |
| UrlGenerating.LooselyEqualValueOmitted | src/Ignite/Routing/Generator/UrlGenerator.php:123 | the value `01` does not override the default `1` under the loose `!=`, so the trailing `page` of `/blog/{page}` is left out |
| Strings.IntegerNumericIntToString | src/Ignite/Routing/Generator/UrlGenerator.php:123 | the decimal string of an integer reads back as that integer exactly when it lies between PHP_INT_MIN and PHP_INT_MAX |
| Strings.LeadingZeroLooseEquals | src/Ignite/Routing/Generator/UrlGenerator.php:123 | a number with a leading zero loosely equals its plain spelling exactly up to PHP_INT_MAX; past it the bytes are compared |
| Strings.InArray | src/Ignite/Routing/RouteCompiler.php:38 | in_array without the strict flag: every element finds itself, and a needle that is not integer-like is found only as itself |
| Strings.LooseEqualsIntToString | src/Ignite/Routing/Generator/UrlGenerator.php:123 | loosely, the decimal strings of two integers are equal exactly when the integers are |
| Strings.LooseEqualsExamples | src/Ignite/Routing/Generator/UrlGenerator.php:123 | example: `01` and ` 1` loosely equal `1`, while `1a` does not equal `1` and the empty string does not equal `0` |
| UrlGenerating.EncodedValueDecodes | src/Ignite/Routing/Generator/UrlGenerator.php:134 | a value the generator writes decodes back to itself |
| UrlGenerating.Extra | src/Ignite/Routing/Generator/UrlGenerator.php:150 | the extra parameters are the caller's pairs whose key is neither a variable nor a default |
| UrlGenerating.QueryPairs | src/Ignite/Routing/Generator/UrlGenerator.php:151 | http_build_query writes one non-empty `key=value` pair per non-null value, none when every value is null |
| UrlGenerating.JoinEmpty | src/Ignite/Routing/Generator/UrlGenerator.php:151-155 | joining non-empty pairs with `&` gives "" only when there are none |
| UrlGenerating.QueryOnlyExtras | src/Ignite/Routing/Generator/UrlGenerator.php:150-155 | the query string is empty exactly when every extra value is null, and holds only extras |
| UrlGenerating.AbsoluteShape | src/Ignite/Routing/Generator/UrlGenerator.php:157-178 | with a host and an absolute or forced scheme the URL is `scheme://host[:port]base path`, with the default port left out; otherwise it is the base URL and path |
| RoutingContext.RequestContext.constructor | src/Ignite/Routing/RequestContext.php:30-39 | the context keeps its arguments, with the method upper-cased, the scheme lower-cased and no parameters |
| RoutingContext.RequestContext.Default | src/Ignite/Routing/RequestContext.php:30-39 | the defaults are "", GET, localhost, http, 80 and 443 |
| RoutingContext.RequestContext.SetBaseUrl | src/Ignite/Routing/RequestContext.php:46-49 | only the base URL changes |
| RoutingContext.RequestContext.SetMethod | src/Ignite/Routing/RequestContext.php:56-59 | only the method changes, upper-cased |
| RoutingContext.RequestContext.SetHost | src/Ignite/Routing/RequestContext.php:66-69 | only the host changes |
| RoutingContext.RequestContext.SetScheme | src/Ignite/Routing/RequestContext.php:76-79 | only the scheme changes, lower-cased, and the context is secure exactly when it reads https |
| RoutingContext.RequestContext.SetHttpPort | src/Ignite/Routing/RequestContext.php:86-89 | only the HTTP port changes |
| RoutingContext.RequestContext.SetHttpsPort | src/Ignite/Routing/RequestContext.php:96-99 | only the HTTPS port changes |
| RoutingContext.RequestContext.SetParameters | src/Ignite/Routing/RequestContext.php:106-111 | the parameter map is replaced and nothing else changes |
| RoutingContext.RequestContext.GetParameter | src/Ignite/Routing/RequestContext.php:113-116 | a value is returned exactly for a name stored with a non-null value |
| RoutingContext.RequestContext.HasParameter | src/Ignite/Routing/RequestContext.php:118-121 | a parameter that is not present reads as null, and a present one reads as its stored value, null included |
| RoutingContext.RequestContext.IsSecure | src/Ignite/Routing/RequestContext.php:130-133 | the context is secure exactly when its scheme is `https`, which is already lower-case |
| RoutingContext.RequestContext.SetParameter | src/Ignite/Routing/RequestContext.php:123-128 | the name is stored with its value, and every other name and field is unchanged |
| MethodNotAllowedErrors.UpperAll | src/Ignite/Routing/Exception/MethodNotAllowedException.php:15 | array_map over strtoupper upper-cases every element, in order |
| MethodNotAllowedErrors.NewMethodNotAllowed | src/Ignite/Routing/Exception/MethodNotAllowedException.php:13-18 | the allowed methods are stored upper-cased; message and code pass through |
| MethodNotAllowedErrors.UpperCaseListUnchanged | src/Ignite/Routing/Exception/MethodNotAllowedException.php:15 | an upper-case list is stored unchanged |
| MethodNotAllowedErrors.UpperAllIdempotent | src/Ignite/Routing/Exception/MethodNotAllowedException.php:15 | upper-casing twice is upper-casing once |
| SimpleRouting.AsList | src/Ignite/Routing/Route.php:20 | `(array)` makes a single method a one-element list, keeps a list and turns null into the empty list |
| SimpleRouting.EscapeSlashes | src/Ignite/Routing/Route.php:51 | every `/` of the escaped URI is preceded by a backslash |
| SimpleRouting.UnescapeEscape | src/Ignite/Routing/Route.php:51 | the escaping loses nothing: the URI can be read back |
| SimpleRouting.UriPattern | src/Ignite/Routing/Route.php:51 | the pattern is the escaped URI between `/^` and `$/` |
| SimpleRouting.Route.constructor | src/Ignite/Routing/Route.php:17-26 | a route keeps its URI and action, and HEAD is added when GET is listed without it |
| SimpleRouting.Route.Uri | src/Ignite/Routing/Route.php:60-63 | uri() returns the stored URI |
| SimpleRouting.Route.Matches | src/Ignite/Routing/Route.php:45-53 | with the intended method test, a route matches only a method loosely `in_array` among its methods (only the method itself when it is not integer-like), and then exactly when its escaped-URI pattern matches the request URI |
| SimpleRouting.NoRouteMatchesAsWritten | src/Ignite/Routing/Route.php:47 | as written, no route matches any method, while a GET route matches GET under the intended test |
| SimpleRouting.HeadLikeGet | src/Ignite/Routing/Route.php:23-25 | a route that matches GET also matches HEAD |
| SimpleRouting.Router.constructor | src/Ignite/Routing/Router.php:22-26 | a router starts with no routes |
| SimpleRouting.Router.AddRoute | src/Ignite/Routing/Router.php:40-44 | one new route is appended, and every route still takes HEAD when it takes GET |
| SimpleRouting.Router.Get | src/Ignite/Routing/Router.php:35-38 | get appends a route for GET and HEAD |
| SimpleRouting.Router.Dispatch | src/Ignite/Routing/Router.php:46-55 | dispatch returns the first registered route that matches, else the error "Route not found" when none does |
| HttpParameters.ParameterContainer.constructor | src/Ignite/Http/ParameterContainer.php:14-17 | the container holds the given array |
| HttpParameters.ParameterContainer.Replace | src/Ignite/Http/ParameterContainer.php:29-32 | replace swaps the whole array |
| HttpParameters.ParameterContainer.Set | src/Ignite/Http/ParameterContainer.php:84-87 | set binds the key to the value and every other key reads as before |
| HttpParameters.ParameterContainer.Has | src/Ignite/Http/ParameterContainer.php:89-92 | has holds exactly when the key is stored, a stored null included; without it a shallow get gives the default |
| HttpParameters.ParameterContainer.Remove | src/Ignite/Http/ParameterContainer.php:94-97 | remove makes the key absent and every other key reads as before |
| HttpParameters.ParameterContainer.Get | src/Ignite/Http/ParameterContainer.php:34-82 | the character loop equals the deep-get specification, including its four malformed-path errors |
| HttpParameters.ReadKey | src/Ignite/Http/ParameterContainer.php:68-74 | the characters of a key inside brackets are gathered one by one |
| HttpParameters.DescendBrackets | src/Ignite/Http/ParameterContainer.php:48-81 | a path of complete plain brackets finds the nested value, or the default at the first missing level |
| HttpParameters.DeepGet | src/Ignite/Http/ParameterContainer.php:34-82 | `get(root[k1]...[kn], default, true)` is the nested lookup under `root`, or the default |
| HttpParameters.ClosedPrefix | src/Ignite/Http/ParameterContainer.php:48-81 | complete brackets are descended and the rest of the path is read from the value reached when every level is present; a missing level returns the default |
| HttpParameters.UnclosedFails | src/Ignite/Http/ParameterContainer.php:77-79 | a path that leaves a bracket open throws exactly when every complete level before it is present; otherwise the default is returned first |
| HttpParameters.KeepOnly | src/Ignite/Http/ParameterContainer.php:99-112 | the filter keeps exactly the characters of the class, each as often as in the input |
| HttpParameters.KeepOnlyUnchanged | src/Ignite/Http/ParameterContainer.php:99-112 | a string made only of the class is returned unchanged |
| HttpParameters.KeepOnlyIdempotent | src/Ignite/Http/ParameterContainer.php:99-112 | filtering twice is filtering once |
| HttpParameters.ParameterContainer.GetFiltered | src/Ignite/Http/ParameterContainer.php:99-112 | getAlphabetic, getAlphabeticAndDigits and getDigits filter what get returns, and the result holds only characters of the class |
| HttpHeaders.NormalizeKey | src/Ignite/Http/HeaderContainer.php:80 | a normalised name has the same length, no upper-case letter and no `_` |
| HttpHeaders.NormalizeKeyIdempotent | src/Ignite/Http/HeaderContainer.php:80 | normalising a normalised name changes nothing |
| HttpHeaders.SameHeaderExample | src/Ignite/Http/HeaderContainer.php:80 | example: `Content_Type` and `content-type` name the same header |
| HttpHeaders.HeaderContainer.constructor | src/Ignite/Http/HeaderContainer.php:18-26 | every given header is set in turn, with no directives at first |
| HttpHeaders.HeaderContainer.Set | src/Ignite/Http/HeaderContainer.php:97-110 | set stores the values under the normalised name, replacing or appending, and parses a `cache-control` value into the directives |
| HttpHeaders.SetStateValid | src/Ignite/Http/HeaderContainer.php:97-110 | set keeps every stored name normalised and every name and directive unique |
| HttpHeaders.HeaderContainer.Add | src/Ignite/Http/HeaderContainer.php:71-76 | add sets every given header, with replacement, in turn |
| HttpHeaders.AddAllValid | src/Ignite/Http/HeaderContainer.php:71-76 | add keeps the container well formed |
| HttpHeaders.AddAllKeys | src/Ignite/Http/HeaderContainer.php:18-26 | after add over no headers, every stored name is the normalised form of an added name |
| HttpHeaders.HeaderContainer.Replace | src/Ignite/Http/HeaderContainer.php:65-69 | replace empties the headers, keeps the directives, then adds the given headers |
| HttpHeaders.FirstIsHead | src/Ignite/Http/HeaderContainer.php:78-95 | get's first form is the head of its list form, or the default for an absent or empty header |
| HttpHeaders.HeaderContainer.Get | src/Ignite/Http/HeaderContainer.php:78-95 | get returns the first value or the list as asked; an absent header gives the default (null or `[]` without one), a present one its stored list, and an empty list gives the default as its first value |
| HttpHeaders.HeaderContainer.Has | src/Ignite/Http/HeaderContainer.php:112-115 | has holds exactly when some spelling of the name is stored |
| HttpHeaders.HeaderContainer.Contains | src/Ignite/Http/HeaderContainer.php:117-120 | an absent header contains nothing; a stored value is contained; a non-numeric value is contained only when stored exactly, a numeric one also when loosely equal |
| HttpHeaders.SetThenGet | src/Ignite/Http/HeaderContainer.php:78-110 | after set with replacement, any spelling of the name reads back exactly the new values |
| HttpHeaders.AppendThenGet | src/Ignite/Http/HeaderContainer.php:101-105 | set without replacement on a present header appends to its values |
| HttpHeaders.NewThenGet | src/Ignite/Http/HeaderContainer.php:101-102 | set without replacement on an absent header stores the values |
| HttpHeaders.SetLeavesOthers | src/Ignite/Http/HeaderContainer.php:97-110 | set leaves every other header reading as before |
| HttpHeaders.HeaderContainer.Remove | src/Ignite/Http/HeaderContainer.php:122-131 | remove drops the normalised name, and with `cache-control` empties the directives |
| HttpHeaders.RemoveThenGet | src/Ignite/Http/HeaderContainer.php:122-131 | after remove, any spelling of the name reads as absent |
| HttpHeaders.HeaderContainer.GetCacheControlHeader | src/Ignite/Http/HeaderContainer.php:173-192 | the directives are sorted by name in place, and the header is their rendering |
| HttpHeaders.HeaderContainer.ParseCacheControl | src/Ignite/Http/HeaderContainer.php:201-212 | the assignment loop equals the parse specification |
| HttpHeaders.HeaderContainer.AddCacheControlDirective | src/Ignite/Http/HeaderContainer.php:149-154 | the directive is assigned, and the rendered sorted directives are set as the header, parsed back, and read back by get as its first value |
| HttpHeaders.HeaderContainer.RemoveCacheControlDirective | src/Ignite/Http/HeaderContainer.php:166-171 | the directive is unset, and the rendered sorted rest is set as the header and parsed back |
| HttpHeaders.AddDirectiveKeepsAll | src/Ignite/Http/HeaderContainer.php:149-154 | adding a directive keeps every directive, sorted, when they render back |
| HttpHeaders.CacheControlName | src/Ignite/Http/HeaderContainer.php:153 | example: `Cache-Control` normalises to `cache-control` |
| HttpHeaders.AddDirectiveAsWrittenLosesValue | src/Ignite/Http/HeaderContainer.php:108 | as written, adding `max-age=60` leaves only a directive `m` with no value |
| HttpHeaders.AddDirectiveKeepsValue | src/Ignite/Http/HeaderContainer.php:108 | parsing the whole value keeps `max-age=60` |
| HttpHeaders.StringHeaderAsWritten | src/Ignite/Http/HeaderContainer.php:91-104 | as written, the string `max-age=60` set by addCacheControlDirective is stored as a string and get with `$first` raises a TypeError, and an append of a string to a list or of a list to a string raises one |
| HttpHeaders.StringHeaderReadsBack | src/Ignite/Http/HeaderContainer.php:91-104 | a string set with replacement reads back as the first value, and a string appended to a present header becomes its last value |
| HttpHeaders.HeaderContainer.HasCacheControlDirective | src/Ignite/Http/HeaderContainer.php:156-159 | a directive is present exactly when getCacheControlDirective finds it |
| HttpHeaders.HeaderContainer.GetCacheControlDirective | src/Ignite/Http/HeaderContainer.php:161-164 | the directive is found exactly when its name is stored, and what is found is stored under that name |
| CacheControl.InsertSorted | src/Ignite/Http/HeaderContainer.php:177 | inserting a pair with a new name into a sorted list keeps it sorted |
| CacheControl.SortByKey | src/Ignite/Http/HeaderContainer.php:177 | ksort keeps the same pairs |
| CacheControl.SortByKeySorted | src/Ignite/Http/HeaderContainer.php:177 | ksort leaves the pairs in ascending byte order of their distinct names |
| CacheControl.SortedWellFormed | src/Ignite/Http/HeaderContainer.php:177 | sorted names are distinct names |
| CacheControl.ParseLookup | src/Ignite/Http/HeaderContainer.php:201-212 | the parsed directives hold each matched name once, in first-seen order, with its last value |
| CacheControl.NameThenValue | src/Ignite/Http/HeaderContainer.php:205 | a name followed by a non-name character is matched as that name and its value part |
| CacheControl.BarePart | src/Ignite/Http/HeaderContainer.php:205 | a value that needs no quotes is read back by the bare alternative |
| CacheControl.QuotedPart | src/Ignite/Http/HeaderContainer.php:205 | a quoted value is read back without its quotes |
| CacheControl.ScanOne | src/Ignite/Http/HeaderContainer.php:205-209 | the scan reads one directive at the start of the header, then goes on after it |
| CacheControl.ScanDirective | src/Ignite/Http/HeaderContainer.php:205-209 | a name followed by a value part is read as one directive |
| CacheControl.ScanTextPart | src/Ignite/Http/HeaderContainer.php:183-187 | a rendered directive with a text value is read back as itself |
| CacheControl.ScanPart | src/Ignite/Http/HeaderContainer.php:179-189 | one rendered directive is read back as itself |
| CacheControl.ScanRender | src/Ignite/Http/HeaderContainer.php:173-212 | scanning a rendered list of directives gives the list back |
| CacheControl.PutAllDistinct | src/Ignite/Http/HeaderContainer.php:207-209 | assigning pairs with distinct names in order gives those pairs |
| CacheControl.ParseRender | src/Ignite/Http/HeaderContainer.php:173-212 | the header getCacheControlHeader writes parses back to the sorted directives |
| CacheControl.QuotedValueExample | src/Ignite/Http/HeaderContainer.php:205 | example: a quoted value keeps the comma and the space a bare value could not |
| ServerHeaders.HeaderName | src/Ignite/Http/ServerContainer.php:18-22 | a server key yields a header exactly when it starts with `HTTP_` (the rest of the key) or is a content key (the key itself) |
| ServerHeaders.ServerContainer.constructor | src/Ignite/Http/ServerContainer.php:11 | the container holds the given server array |
| ServerHeaders.ServerContainer.GetHeaders | src/Ignite/Http/ServerContainer.php:13-53 | the loop and the credential steps compute the header specification and leave the bag unchanged |
| ServerHeaders.SourcesKeys | src/Ignite/Http/ServerContainer.php:17-23 | the loop yields a header exactly for the names some server key yields |
| ServerHeaders.OtherKeysIgnored | src/Ignite/Http/ServerContainer.php:17-23 | a key that neither starts with `HTTP_` nor is a content key yields nothing |
| ServerHeaders.CopiedHeader | src/Ignite/Http/ServerContainer.php:17-23 | a header other than the credential headers holds the value of the last server key yielding it, and exists exactly when one does |
| ServerHeaders.HttpKeyCopied | src/Ignite/Http/ServerContainer.php:18-19 | an `HTTP_X` entry that no later entry shadows yields header X with its value |
| ServerHeaders.AuthorizationValue | src/Ignite/Http/ServerContainer.php:29-35 | HTTP_AUTHORIZATION is preferred, then REDIRECT_HTTP_AUTHORIZATION |
| ServerHeaders.BasicCredentials | src/Ignite/Http/ServerContainer.php:37-44 | credentials come only from a value starting with `basic` whose decoding is the user, `:` and the password, neither holding `:` |
| ServerHeaders.ServerUserCopied | src/Ignite/Http/ServerContainer.php:25-27 | PHP_AUTH_USER is copied with its password, "" by default, and encoded into AUTHORIZATION |
| ServerHeaders.AuthorizationFromCredentials | src/Ignite/Http/ServerContainer.php:47-50 | once credentials are recorded, AUTHORIZATION is `Basic ` and the base64 of `user:password` |
| ServerHeaders.AuthorizationMatchesUser | src/Ignite/Http/ServerContainer.php:47-50 | whenever a user ends up set, AUTHORIZATION encodes that user and password |
| ServerHeaders.BasicRoundTrip | src/Ignite/Http/ServerContainer.php:37-50 | a lower-case basic header carrying `user:password` yields that user and password, and AUTHORIZATION re-encodes them |
| ServerHeaders.OnlyLowerCaseBasic | src/Ignite/Http/ServerContainer.php:38 | a value not starting with lower-case `basic`, the usual `Basic` among them, yields no credentials |
| ServerHeaders.NoPairNoCredentials | src/Ignite/Http/ServerContainer.php:41 | a decoding that does not split into exactly two parts yields no credentials |
| Base64.DecodeEncodeChar | src/Ignite/Http/ServerContainer.php:39-49 | decoding the character of a 6-bit value gives the value back |
| Base64.Encode | src/Ignite/Http/ServerContainer.php:49 | base64_encode writes four characters per started group of three bytes |
| Base64.EncodeAlphabet | src/Ignite/Http/ServerContainer.php:49 | the encoding holds only alphabet characters and `=` |
| Base64.Group3 | src/Ignite/Http/ServerContainer.php:39-49 | three bytes survive the trip through four 6-bit values |
| Base64.SextetsOfEncoded | src/Ignite/Http/ServerContainer.php:39-49 | the decoder reads back exactly the 6-bit values the encoder wrote |
| Base64.DecodeEncodedSextets | src/Ignite/Http/ServerContainer.php:39-49 | the 6-bit values of an encoding decode to the original bytes |
| Base64.DecodeEncode | src/Ignite/Http/ServerContainer.php:39-49 | base64_decode undoes base64_encode on byte strings |
| Sessions.Storage.constructor | src/Ignite/Http/SessionStorage/SessionStorageInterface.php:11-24 | the in-memory storage starts unstarted with the given slots |
| Sessions.Storage.Start | src/Ignite/Http/SessionStorage/SessionStorageInterface.php:13 | start marks the storage started |
| Sessions.Storage.Read | src/Ignite/Http/SessionStorage/SessionStorageInterface.php:17 | read returns the slot's data, or nothing |
| Sessions.Storage.Write | src/Ignite/Http/SessionStorage/SessionStorageInterface.php:21 | write replaces one slot |
| Sessions.Session.constructor | src/Ignite/Http/Session.php:20-31 | a session starts empty, with the default locale, neither started nor closed |
| Sessions.Started | src/Ignite/Http/Session.php:33-54 | start marks the session started and changes nothing when it already was |
| Sessions.Session.Start | src/Ignite/Http/Session.php:33-54 | start equals the start specification on what the storage holds, and starts the storage once |
| Sessions.StartIdempotent | src/Ignite/Http/Session.php:35-37 | starting a started session changes nothing, whatever the storage holds |
| Sessions.StartLoads | src/Ignite/Http/Session.php:41-53 | data with attributes is loaded and its flashes marked old; other data only marks the session started |
| Sessions.Session.Save | src/Ignite/Http/Session.php:56-69 | save starts if needed, drops the old flashes and writes attributes, flashes and locale under `_fuse` |
| Sessions.SaveKeepsNewFlashes | src/Ignite/Http/Session.php:62 | save keeps exactly the flashes not marked old, with their values |
| Sessions.LoadedFlashesExpire | src/Ignite/Http/Session.php:50-62 | flashes loaded by a fresh session are gone after its save |
| Sessions.SaveThenStart | src/Ignite/Http/Session.php:41-68 | what one session saves, the next session on that storage starts with |
| Sessions.Session.Close | src/Ignite/Http/Session.php:71-74 | close marks the session closed |
| Sessions.Session.Serialize | src/Ignite/Http/Session.php:76-79 | serialize keeps the storage and the default locale |
| Sessions.Session.Unserialize | src/Ignite/Http/Session.php:81-86 | unserialize restores those two, empties the attributes and un-starts the session |
| UrlMatching.UrlMatcher.MergeDefaults | src/Ignite/Routing/Matcher/UrlMatcher.php:113-124 | the loop computes the merge specification: every default, overwritten by the rawurldecoded value of every named capture (an empty capture included); numbered captures are skipped |
| HttpHeaders.HeaderContainer.JoinDirectives | src/Ignite/Http/HeaderContainer.php:175-191 | the loop renders every directive, bare or as name=value, joined with ", " in the given order |
| ServerHeaders.ServerContainer.CopyHeaders | src/Ignite/Http/ServerContainer.php:17-23 | the loop copies exactly the HTTP_ and CONTENT_ entries under their header names |
| ServerHeaders.ServerContainer.ReadCredentials | src/Ignite/Http/ServerContainer.php:25-45 | the credentials come from PHP_AUTH_USER, else from a Basic authorization header that decodes to a user and password |
| Files.GetName | src/Ignite/Http/File/File.php:129-136 | the result holds no separator, is a suffix of the name with backslashes turned into slashes, and is the name itself when it has no separator |
| Files.GetNameAfterSeparator | src/Ignite/Http/File/File.php:129-136 | the part after the last slash or backslash is what is kept |
| Files.GetNameIdempotent | src/Ignite/Http/File/File.php:129-136 | a base name is its own base name |
| Files.GuessExtension | src/Ignite/Http/File/File.php:47-52 | an extension exactly for a mime type in the default table, and it is that table's entry |
| Files.GuessExtensionExamples | src/Ignite/Http/File/File.php:17-23 | example: the table's entries are found and an unlisted type gives none |
| UploadedFiles.DigitRun | src/Ignite/Http/File/UploadedFile.php:109 | the length of the leading run of digits, never more than the string |
| UploadedFiles.LeadingNumber | src/Ignite/Http/File/UploadedFile.php:109 | a number exactly when a digit run follows an optional sign |
| UploadedFiles.GetMaxFileSize | src/Ignite/Http/File/UploadedFile.php:92-110 | the method computes the size the setting denotes: unlimited when blank, else the leading number scaled by its unit |
| UploadedFiles.UnitScaling | src/Ignite/Http/File/UploadedFile.php:100-107 | digits followed by g, m or k in either case scale by 1024 to the third, second or first power |
| UploadedFiles.NoUnit | src/Ignite/Http/File/UploadedFile.php:92-110 | plain digits are that many bytes |
| UploadedFiles.NoUnitSize | src/Ignite/Http/File/UploadedFile.php:100-109 | a setting ending in a digit is not scaled |
| UploadedFiles.EmptySettingUnlimited | src/Ignite/Http/File/UploadedFile.php:94-98 | a blank setting means PHP_INT_MAX |
| UploadedFiles.MegabytesExample | src/Ignite/Http/File/UploadedFile.php:100-107 | example: 2M is 2097152 bytes |
| UploadedFiles.GigabytesExample | src/Ignite/Http/File/UploadedFile.php:100-107 | example: 1g is 1073741824 bytes |
| UploadedFiles.BareUnitFails | src/Ignite/Http/File/UploadedFile.php:100-109 | a unit without digits is not a number, so scaling it fails |
| UploadedFiles.BaseName | src/Ignite/Http/File/File.php:117 | the base name of a path holds no slash |
| UploadedFiles.UploadedFile.constructor | src/Ignite/Http/File/UploadedFile.php:21-27 | the fields hold the given values |
| UploadedFiles.UploadedFile.Create | src/Ignite/Http/File/UploadedFile.php:15-28 | fails when uploads are disabled, when no size is given, or for an upload without error whose path is no file; otherwise the base name of the client name, octet-stream and UPLOAD_ERR_OK as defaults |
| UploadedFiles.UploadedFile.Move | src/Ignite/Http/File/UploadedFile.php:65-84 | moves exactly a valid upload in test mode or one PHP saw uploaded, to the directory joined with the new or base name; otherwise fails naming the path |
| UploadedFiles.OriginalNameIsBaseName | src/Ignite/Http/File/UploadedFile.php:21 | the kept client name holds no separator |
| MimeTypes.FirstAnswer | src/Ignite/Http/File/MimeType/MimeTypeGuesser.php:102-107 | the first guesser with an answer: it answers and every earlier one does not; none when none answers |
| MimeTypes.MimeTypeGuesser.constructor | src/Ignite/Http/File/MimeType/MimeTypeGuesser.php:53-69 | the supported native guessers are registered, file binary first, so finfo is asked first |
| MimeTypes.MimeTypeGuesser.Register | src/Ignite/Http/File/MimeType/MimeTypeGuesser.php:71-74 | the new guesser is put in front of the others |
| MimeTypes.MimeTypeGuesser.Guess | src/Ignite/Http/File/MimeType/MimeTypeGuesser.php:88-109 | the loop computes the guess outcome: missing or unreadable file, no guessers, the first answer, or no answer at all; it asks the guessers up to the one that answers |
| MimeTypes.LastRegisteredWins | src/Ignite/Http/File/MimeType/MimeTypeGuesser.php:71-107 | a guesser registered last that answers decides the guess |
| MimeTypes.SilentGuesserSkipped | src/Ignite/Http/File/MimeType/MimeTypeGuesser.php:102-107 | a guesser without an answer does not change the outcome |
| MimeTypes.FileChecksFirst | src/Ignite/Http/File/MimeType/MimeTypeGuesser.php:90-96 | a missing or unreadable file fails whatever the guessers are |
| MimeTypes.GuessMeetsIntent | src/Ignite/Http/File/MimeType/MimeTypeGuesser.php:79-109 | whenever the code returns a type, it is the one the documentation promises |
| MimeTypes.SilentChainAsWritten | src/Ignite/Http/File/MimeType/MimeTypeGuesser.php:108-109 | when no guesser answers the code returns no string, where null is documented |
| ParameterErrors.Message | src/Ignite/Container/Exception/ParameterNotFoundException.php:33-42 | the message names the service when there is one, else the referring parameter, else only the requested key |
| ParameterErrors.ServiceTakesPrecedence | src/Ignite/Container/Exception/ParameterNotFoundException.php:35-36 | with a service set, the referring parameter does not affect the message |
| ParameterErrors.MessageEndsWithKey | src/Ignite/Container/Exception/ParameterNotFoundException.php:36-40 | the message ends with the quoted key, with a full stop exactly when a source is named |
| ParameterErrors.MessageDeterminesKey | src/Ignite/Container/Exception/ParameterNotFoundException.php:33-42 | two messages with the same sources are equal only for the same key |
| ParameterErrors.ParameterNotFoundException.constructor | src/Ignite/Container/Exception/ParameterNotFoundException.php:24-31 | the key and sources are stored and the message describes them |
| ParameterErrors.ParameterNotFoundException.UpdateErrorMessage | src/Ignite/Container/Exception/ParameterNotFoundException.php:33-42 | the message describes the current key and sources |
| ParameterErrors.ParameterNotFoundException.GetKey | src/Ignite/Container/Exception/ParameterNotFoundException.php:44-47 | returns the key |
| ParameterErrors.ParameterNotFoundException.GetSourceId | src/Ignite/Container/Exception/ParameterNotFoundException.php:49-52 | returns the service id |
| ParameterErrors.ParameterNotFoundException.SetSourceId | src/Ignite/Container/Exception/ParameterNotFoundException.php:54-59 | the service id is stored and the message follows it |
| ParameterErrors.ParameterNotFoundException.GetSourceKey | src/Ignite/Container/Exception/ParameterNotFoundException.php:61-64 | returns the referring parameter |
| ParameterErrors.ParameterNotFoundException.SetSourceKey | src/Ignite/Container/Exception/ParameterNotFoundException.php:66-71 | the referring parameter is stored and the message follows it |
| Parameters.Double | src/Ignite/Container/ParameterCollection/ParameterCollection.php:192 | escaping never shortens a string |
| Parameters.Halve | src/Ignite/Container/ParameterCollection/ParameterCollection.php:210 | unescaping never lengthens a string |
| Parameters.HalveDouble | src/Ignite/Container/ParameterCollection/ParameterCollection.php:189-223 | halving the doubled percent signs gives back the string |
| Parameters.ReturnedScalar | src/Ignite/Container/ParameterCollection/ParameterCollection.php:204 | the `array\|string` return turns an integer into its decimal string and a boolean into "1" or "", neither holding a percent sign, and refuses null |
| Parameters.Escape | src/Ignite/Container/ParameterCollection/ParameterCollection.php:189-205 | strings get every percent sign doubled, arrays keep their keys, integers and booleans become strings; the result exists exactly when no null occurs at any depth, and then holds strings and arrays only |
| Parameters.Unescape | src/Ignite/Container/ParameterCollection/ParameterCollection.php:207-223 | strings get every double percent halved, arrays keep their keys, integers and booleans become strings; the result exists exactly when no null occurs at any depth, and then holds strings and arrays only |
| Parameters.Coerced | src/Ignite/Container/ParameterCollection/ParameterCollection.php:204 | replacing every integer and boolean by its string leaves a null-free value holding strings and arrays only |
| Parameters.UnescapeEscape | src/Ignite/Container/ParameterCollection/ParameterCollection.php:189-223 | escaping fails exactly on a value holding null; otherwise unescaping the escaped value gives back the value with its integers and booleans turned into strings, through arrays of any depth |
| Parameters.UnescapeEscapeStrings | src/Ignite/Container/ParameterCollection/ParameterCollection.php:189-223 | a value of strings and arrays only comes back unchanged from escaping and unescaping |
| Parameters.EscapeNumberExample | src/Ignite/Container/ParameterCollection/ParameterCollection.php:189-223 | example: the integer 80 escapes and unescapes to the string "80"; null, alone or inside an array, cannot be escaped or unescaped |
| Parameters.WholeReference | src/Ignite/Container/ParameterCollection/ParameterCollection.php:147-148 | a key exactly for a name between two percent signs, optionally followed by a final newline |
| Parameters.WholeReferenceOf | src/Ignite/Container/ParameterCollection/ParameterCollection.php:147-148 | both spellings of a whole reference yield its key |
| Parameters.Resolved | src/Ignite/Container/ParameterCollection/ParameterCollection.php:126-143 | resolveValue keeps every value that is neither a string nor an array, and an array resolves to an array |
| Parameters.ResolvedString | src/Ignite/Container/ParameterCollection/ParameterCollection.php:145-182 | a string that is not a whole reference resolves to a string |
| Parameters.ParameterCollection.constructor | src/Ignite/Container/ParameterCollection/ParameterCollection.php:15-18 | the parameters are set one by one under lower-cased names, and the collection is not resolved |
| Parameters.ParameterCollection.Clear | src/Ignite/Container/ParameterCollection/ParameterCollection.php:20-23 | no parameter is left |
| Parameters.ParameterCollection.Add | src/Ignite/Container/ParameterCollection/ParameterCollection.php:25-30 | every pair is set in turn on top of the stored parameters |
| Parameters.ParameterCollection.All | src/Ignite/Container/ParameterCollection/ParameterCollection.php:37-40 | returns the stored parameters |
| Parameters.ParameterCollection.Get | src/Ignite/Container/ParameterCollection/ParameterCollection.php:49-56 | the value stored under exactly this name, or a not-found exception naming it with no source |
| Parameters.ParameterCollection.Remove | src/Ignite/Container/ParameterCollection/ParameterCollection.php:64-67 | the name is unset and the rest keep their order |
| Parameters.ParameterCollection.Set | src/Ignite/Container/ParameterCollection/ParameterCollection.php:76-79 | the value is stored under the lower-cased name |
| Parameters.ParameterCollection.Has | src/Ignite/Container/ParameterCollection/ParameterCollection.php:87-90 | true exactly when the name as given is stored |
| Parameters.ParameterCollection.IsResolved | src/Ignite/Container/ParameterCollection/ParameterCollection.php:184-187 | returns the resolved flag |
| Parameters.ResolvedEntry | src/Ignite/Container/ParameterCollection/ParameterCollection.php:103-104 | a value is stored exactly when it resolves to a value without null, and it is then strings and arrays only; a resolution failure is kept and a null gives the TypeError |
| Parameters.ParameterCollection.Resolve | src/Ignite/Container/ParameterCollection/ParameterCollection.php:92-113 | a second call does nothing; otherwise the parameters become their resolved and unescaped values, or the first failure is thrown and nothing changes: a missing reference tagged with its key, an illegal array key or a null value as a TypeError |
| Parameters.FailureStays | src/Ignite/Container/ParameterCollection/ParameterCollection.php:100-108 | once an entry fails, the outcome is that failure whatever follows |
| Parameters.ResolvedAllSucceeds | src/Ignite/Container/ParameterCollection/ParameterCollection.php:100-109 | resolve succeeds exactly when every value resolves to a value holding no null |
| Parameters.ResolvedAllValues | src/Ignite/Container/ParameterCollection/ParameterCollection.php:100-111 | after success every key is in its place, holding its value resolved and unescaped, which is strings and arrays only |
| Parameters.ResolvedAllFailure | src/Ignite/Container/ParameterCollection/ParameterCollection.php:100-108 | a failure names the key of the first entry that fails, with its resolution error, or the null TypeError when its value resolves but holds null; every earlier entry resolves without null |
| Parameters.SetStoresLowerCase | src/Ignite/Container/ParameterCollection/ParameterCollection.php:76-90 | a value set is found under the lower-cased name, and a name with capitals looks elsewhere |
| Parameters.SubstitutionKeepsEscapes | src/Ignite/Container/ParameterCollection/ParameterCollection.php:159-162 | an escaped text is copied with every double percent kept |
| Parameters.PlainStringUnchanged | src/Ignite/Container/ParameterCollection/ParameterCollection.php:145-182 | a string without percent signs resolves to itself |
| Parameters.EscapedStringSurvives | src/Ignite/Container/ParameterCollection/ParameterCollection.php:145-223 | an escaped string resolves to itself, so escaping then resolving then unescaping gives back the text |
| Parameters.WholeReferenceValue | src/Ignite/Container/ParameterCollection/ParameterCollection.php:147-156 | a whole reference resolves to the referenced value, as stored once resolved and resolved in turn before |
| Parameters.MissingReference | src/Ignite/Container/ParameterCollection/ParameterCollection.php:147-156 | a whole reference to a missing parameter fails naming it |
| Parameters.SelfReferenceTerminates | src/Ignite/Container/ParameterCollection/ParameterCollection.php:150-152 | a parameter referring to itself resolves to the still-resolving marker |
| Parameters.ReferenceReplaced | src/Ignite/Container/ParameterCollection/ParameterCollection.php:159-181 | an embedded reference is replaced by what the callback returns for it |
| Parameters.EmbeddedReference | src/Ignite/Container/ParameterCollection/ParameterCollection.php:164-179 | an embedded reference to a string without percent signs is replaced by that string |
| Parameters.EmbeddedNumber | src/Ignite/Container/ParameterCollection/ParameterCollection.php:172-179 | an embedded reference to a number is replaced by its decimal digits |
| Parameters.EmbeddedCycleMarked | src/Ignite/Container/ParameterCollection/ParameterCollection.php:166-168 | an embedded reference back into the resolving path becomes the error text |
| Parameters.EmbeddedFinalOnceResolved | src/Ignite/Container/ParameterCollection/ParameterCollection.php:179 | in a resolved collection an embedded reference takes the stored text as it is |
| Parameters.EmbeddedResolvedAgainAsWritten | src/Ignite/Container/ParameterCollection/ParameterCollection.php:179 | as written, a resolved value holding a reference is resolved once more and fails on the missing key |
| Parameters.ResolveUnaffected | src/Ignite/Container/ParameterCollection/ParameterCollection.php:92-113 | resolve runs on an unresolved collection, where the code and the intent agree |
| ContainerUtil.ArrayWrap | src/Ignite/Container/Util.php:13-20 | null gives the empty array, an array is returned as it is, and any other value is wrapped in a one-element list |
| ContainerUtil.ArrayWrapIdempotent | src/Ignite/Container/Util.php:13-20 | wrapping a wrapped value changes nothing |
| ContainerUtil.ArrayWrapMembers | src/Ignite/Container/Util.php:13-20 | every element returned is the value itself or an entry of the given array |
| ConfigLoaders.FirstSupporting | src/Ignite/Config/Loader/LoaderResolver.php:20-29 | the position of a loader that supports the resource with none before it, or none when no loader does |
| ConfigLoaders.Loader.constructor | src/Ignite/Config/Loader/Loader.php:7 | a new loader has no resolver |
| ConfigLoaders.Loader.GetResolver | src/Ignite/Config/Loader/Loader.php:9-12 | returns the resolver |
| ConfigLoaders.Loader.SetResolver | src/Ignite/Config/Loader/Loader.php:14-17 | stores the resolver |
| ConfigLoaders.Loader.Resolve | src/Ignite/Config/Loader/Loader.php:24-37 | the loader itself when it supports the resource, else what its resolver chooses, else none |
| ConfigLoaders.LoaderResolver.constructor | src/Ignite/Config/Loader/LoaderResolver.php:12-18 | the loaders are kept in the given order, each pointed back at this resolver |
| ConfigLoaders.LoaderResolver.Resolve | src/Ignite/Config/Loader/LoaderResolver.php:20-29 | the loop returns the first loader, in the order added, that supports the resource, or none |
| ConfigLoaders.LoaderResolver.AddLoader | src/Ignite/Config/Loader/LoaderResolver.php:37-41 | the loader is appended and pointed back at this resolver |
| ConfigLoaders.LoaderResolver.GetLoaders | src/Ignite/Config/Loader/LoaderResolver.php:43-46 | returns the loaders in order |
| ConfigLoaders.FirstSupportingAt | src/Ignite/Config/Loader/LoaderResolver.php:22-25 | a supporting loader with no supporting loader before it is the one chosen |
| ConfigLoaders.EarlierLoaderKeepsResource | src/Ignite/Config/Loader/LoaderResolver.php:20-41 | adding a loader never changes the choice for a resource an earlier loader supports |
| ConfigLoaders.AddedLoaderTakesTheRest | src/Ignite/Config/Loader/LoaderResolver.php:20-41 | a loader added last gets exactly the resources it supports that no earlier loader does |
| Foundation.BasePath | src/Ignite/Foundation/Application.php:111-114 | the base path, followed by a separator and the path when one is given; an error when no base path is set |
| Foundation.BootstrapPath | src/Ignite/Foundation/Application.php:116-119 | the base path's bootstrap entry, followed by the path when one is given |
| Foundation.AppPath | src/Ignite/Foundation/Application.php:83-88 | the chosen directory when one is set and truthy, else the base path's app entry, followed by the path when one is given |
| Foundation.Application.constructor | src/Ignite/Foundation/Application.php:37-44 | a truthy base path is set and bound with the trailing separators removed; otherwise nothing is set |
| Foundation.Application.GetVersion | src/Ignite/Foundation/Application.php:14-49 | the version is 0.0.1 |
| Foundation.Application.SetBasePath | src/Ignite/Foundation/Application.php:60-75 | the base path is stored without trailing separators and path, path.base and path.bootstrap are bound to the helpers' values |
| Foundation.Application.Path | src/Ignite/Foundation/Application.php:83-88 | computes the app path |
| Foundation.Application.UseAppPath | src/Ignite/Foundation/Application.php:96-103 | the directory is kept and bound as path |
| Foundation.Application.GetBasePath | src/Ignite/Foundation/Application.php:111-114 | computes the base path |
| Foundation.Application.GetBootstrapPath | src/Ignite/Foundation/Application.php:116-119 | computes the bootstrap path |
| Foundation.BasePathTrimmed | src/Ignite/Foundation/Application.php:62 | a stored base path never ends with a separator and trimming it again changes nothing |
| Foundation.TrailingSeparatorsRemoved | src/Ignite/Foundation/Application.php:62 | any mix of trailing slashes and backslashes is removed |
| Foundation.AppPathUnderBase | src/Ignite/Foundation/Application.php:85-87 | without a chosen directory the app path is the base path's app entry |
| Foundation.FalsyAppPathIgnored | src/Ignite/Foundation/Application.php:85 | an empty or "0" directory is ignored in favour of the base path's app entry |
| Foundation.AppPathAgreesOnceChosen | src/Ignite/Foundation/Application.php:85 | once a directory is chosen the code and the intent agree |
| Foundation.AppPathUnsetAsWritten | src/Ignite/Foundation/Application.php:85 | as written, reading the app path before one is chosen fails, where the intent gives the base path's app entry |
| Foundation.BindingsMatchHelpers | src/Ignite/Foundation/Application.php:69-75 | the three bindings equal the base path, its bootstrap entry and the app path |

## Left out

- RouteCollections: the tree of collections is a value, so the parent links (`getParent`, `setParent`) and the sharing of one child collection object between two parents are not modelled.
- RouteCollections.RouteCollection.AddCollection: nested collections are added to the top-most collection only. A nested collection reaches the tree through its parent. Name uniqueness is promised only within the tree below the collection addCollection is called on. In the program, calling addCollection on a collection that is itself nested removes the child's names only from that subtree, so a name can then occur twice in the enclosing tree; the model has no parent links and does not state that case.
- RouteCollection `getIterator`, `getPrefix`, `__clone`, `getResources` and `addResource` are not modelled: the first two are field reads of the value tree, and the resources are never read by the core.
- RouteCollection route names are strings. PHP turns a numeric string key into an integer key, and that conversion is not modelled.
- Regular-expression matching of the requirement sub-patterns is a parameter (`Requirement`, `Regex`). The compiled regex is matched as a structured search over the tokens: lazy captures and greedy optional groups. PCRE itself is not modelled.
- The following code is modelled as its evident intent, and the code as written at these lines is not modelled:
  - RouteCompiler.php lines 22, 23 and 33: the separator read, the scan advance and the misspelt separator list;
  - UrlMatcher.php line 67 (iterating a collection), line 102 (the inverted method test) and line 110 (the missing return value);
  - RequestContext.php line 98, which stores the HTTPS port in the HTTP port field.
- CompiledRoute getters are field reads of a record. So are the plain getters of RequestContext, UrlMatcher, UrlGenerator, UploadedFile and MethodNotAllowedException.
- Casts between strings, integers, floats and booleans are modelled only where the code relies on them: truthiness, `(int)` of a leading number, and the decimal string of an integer.
- PHP 8's loose `==` between two strings (`Strings.LooseEquals`) is modelled for integer-like numeric strings: optional surrounding whitespace, an optional sign and decimal digits, so `01`, ` 1` and `+1` all equal `1`. Float-like numeric strings (`1.0`, `1e0`, `.5`) are compared byte for byte in the model, where PHP compares them as floats. Integer strings beyond PHP_INT_MIN..PHP_INT_MAX are compared byte for byte too, which is PHP 8's outcome: two such strings that are equal as floats fall back to the bytes, and one against an int-sized string is never equal.
- UrlGenerating.UrlGenerator.WalkTokens: the `!=` of line 123 is the loose comparison above, so float-like spellings of a default (`1.0` for `1`) count as overriding it in the model, where PHP treats them as equal. The same holds for UrlGenerating.UrlGenerator.Generate, UrlGenerating.UrlGenerator.DoGenerate and UrlGenerating.DefaultTailOmitted, which rest on it.
- RouteCompiler.CompileSucceedsIffDistinct: placeholder names are compared with the loose `==` above, so an exponent spelling such as `1e0`, which PHP reads as the float 1 and so finds equal to `1`, counts as a distinct name in the model. The same holds for RouteCompiler.ScanNames, RouteCompiler.ScanUnfold, RouteCompiler.ScanTokens, RouteCompiler.AppendMatch and RouteCompiler.Compile.
- UrlMatching.UrlMatcher.MatchRoute: the request method is looked up with `Strings.InArray`, so float-like method names are compared byte for byte. The same holds for SimpleRouting.Route.Matches.
- HttpHeaders.HeaderContainer.Contains: `in_array` compares loosely as above; float-like numeric strings are compared byte for byte. Non-string needles (null, booleans, integers) are not modelled: the value is a string.
- SimpleRouting.Router.Dispatch: as written, a matching route is answered with `$route->execute()`, which Route does not define, so every successful dispatch raises an Error. The model returns the matching route instead; `Route::run` is not modelled (see above).
- SimpleRouting.Router.Get: the action is a list of strings. As written, the default `null` action, or a callable or string action, raises a TypeError when Route assigns it to its typed `array $action` property; those calls are not modelled.
- HttpHeaders.HeaderContainer.Set: a string argument is stored as a one-value list (see Findings). An empty list set on `cache-control` passes null to the `string` parameter of parseCacheControl, a TypeError; the model parses the empty string instead.
- HttpHeaders.SetThenGet, HttpHeaders.AppendThenGet and HttpHeaders.NewThenGet: they state what get returns once a string is stored as a one-value list. As written, a header set from a string makes get with `$first` and a later append raise a TypeError (HttpHeaders.StringHeaderAsWritten).
- HttpHeaders.HeaderContainer.AddCacheControlDirective and HttpHeaders.HeaderContainer.RemoveCacheControlDirective: the rendered header is set as a string, which the model stores as a one-value list. As written it is stored as a string, and reading it back with get fails (see Findings).
- HttpParameters: parameter values are strings, null or nested arrays. Integer keys, objects and floats are not modelled.
- HttpParameters.ParameterContainer.GetFiltered: `getInt`, which casts the value with `(int)`, is not modelled. Only the character-class filters (`getAlphabetic`, `getAlphabeticAndDigits`, `getDigits`) are modelled.
- HeaderContainer `getDate`, which parses a date, and `__toString`, which formats the header block, are not modelled.
- Cache-Control directives keep their order by name with `ksort`'s string order. PHP compares integer-like keys numerically, and that order is not modelled.
- UploadedFiles.GetMaxFileSize: a fractional setting such as `1.5M` is read as its integer part, and one without an integer part, such as `.5M` (which PHP reads as 0.5, giving 524288), is reported as NonNumericSize. The float arithmetic PHP performs for it is not modelled. The same holds for a product that overflows PHP_INT_MAX into a float.
- UploadedFiles.UploadedFile.Move and File::move: the file-system steps are not modelled. These are `rename`, `move_uploaded_file`, `mkdir`, `chmod` and the writability checks of `getTargetFile`. A successful move returns the target path; the failures of those steps are not modelled.
- File `getMimeType`, `getExtension` and the SplFileInfo parent class are not modelled. The guesser singleton (`getInstance`) is not modelled either: a guesser is built explicitly.
- The MIME guessers themselves (`finfo`, `mime_content_type`, the `file` binary) are not modelled. What each answers is a parameter, and so are `is_file` and `is_readable`.
- DIRECTORY_SEPARATOR is `/`.
- Sessions: the storage is an in-memory map behind SessionStorageInterface's start, read and write. Its `getId`, `remove` and `regenerate`, the PHP session engine and the `serialize` byte format are not modelled. Malformed stored session data is not modelled either.
- Sessions: `setPhpDefaultLocale` is not modelled, because it changes PHP's process-wide locale. Attribute and flash values are strings.
- SimpleRouting: `Route::run`, `getDomain` and `setContainer` are not modelled, because they call controller code and the container.
- Parameters: parameter values are strings, integers, booleans, null and arrays. Floats and objects are not modelled, so neither is the string a float becomes when resolve unescapes it.
- Parameters: ParameterCircularReferenceException is never thrown by the code, so it is not modelled. A cycle yields the marker strings the code returns.
- Parameters: array keys are strings; a string of digits stands for PHP's integer key. A resolved key of a boolean or null becomes "1", "0" or "", as PHP converts it. Float keys are not modelled.
- ConfigLoaders: `Loader::import` and the abstract `load` and `supports` are not modelled, because they belong to concrete loaders. `supports` is a parameter.
- Foundation: `registerBaseBindings`, `setInstance` and the container's object bindings are not modelled. The path bindings are a map of strings.
- Foundation.Application.constructor: a base path given to the constructor is set as intended. As written, the constructor fails when `path()` reads the uninitialised `appPath` (see Findings).

## Findings

| source | as written | input that shows it | evidently intended | confidence | as-written member | corrected member |
|---|---|---|---|---|---|---|
| src/Ignite/Routing/RouteCompiler.php:18 | a text run becomes a token only when it is truthy, so a run that is exactly `0` is dropped | the pattern `/{a}0/{b}`: its tokens no longer spell the `0`, and the regex does not require it | every non-empty text run becomes a text token | high; not executed | RouteCompiler.StepDropsZeroText | RouteCompiler.ZeroTextRunKept |
| src/Ignite/Routing/RouteCollection.php:50 | the name regex ends in `$` without the D modifier, so it also accepts a name followed by one newline | the name `home` followed by a newline is accepted | only name characters are accepted | high; not executed | RouteCollections.NameWithTrailingNewlineAccepted | RouteCollections.ValidNameCorrected |
| src/Ignite/Routing/RouteCollection.php:139 | `!strpos($prefix, '/', 0)` holds when the slash is at position 0 and when there is none | the prefix `/blog` becomes `//blog`, and `blog/posts` gets no leading slash | a slash is prepended only when the prefix does not start with one | high; not executed | RouteCollections.LeadingSlashDoubled | RouteCollections.NormalizePrefixShape |
| src/Ignite/Routing/Matcher/UrlMatcher.php:85 | the strpos needle is the boolean `getStaticPrefix() !== 0` instead of the static prefix | the path `/page/1` is skipped for the route `/page/{n}`, whose regex matches it | a route is skipped only when the path does not start with its static prefix | high; not executed | UrlMatching.PrefixCheckAsWrittenLosesMatch | UrlMatching.PrefixCheckNeverLosesMatch |
| src/Ignite/Routing/Generator/UrlGenerator.php:123 | a variable is considered when it HAS a default | `/blog/{page}` with the default page `1` and no parameters gives `/blog/1` | a trailing variable left at its default is omitted, giving `/blog` | high; not executed | UrlGenerating.TrailingDefaultAsWritten | UrlGenerating.DefaultTailOmitted |
| src/Ignite/Routing/Route.php:47 | the request method is compared with the undeclared `$this->method`, which reads as null | a GET route never matches a GET request to its URI | the request method is one of the route's methods | high; not executed | SimpleRouting.NoRouteMatchesAsWritten | SimpleRouting.HeadLikeGet |
| src/Ignite/Http/HeaderContainer.php:108 | `$values[0]` of the string written back by addCacheControlDirective is its first character | adding `max-age=60` to no directives leaves one directive named `m` | the whole first value is parsed | high; not executed | HttpHeaders.AddDirectiveAsWrittenLosesValue | HttpHeaders.AddDirectiveKeepsValue |
| src/Ignite/Http/HeaderContainer.php:91-104 | set stores a string argument as it is, but get counts the stored entry (line 91) and an append merges it (line 104), and neither accepts a string | after addCacheControlDirective sets `max-age=60`, get of `Cache-Control` raises a TypeError from `count`; setting a string on a header that already holds one and appending raises one from `array_merge` | a string is one value: it reads back as the first value and can be appended to | high; not executed | HttpHeaders.StringHeaderAsWritten | HttpHeaders.StringHeaderReadsBack |
| src/Ignite/Http/File/MimeType/MimeTypeGuesser.php:108-109 | guess falls off its end when no guesser answers, although it declares a string result | a file that no registered guesser recognises raises a TypeError | null is returned, as documented | high; not executed | MimeTypes.SilentChainAsWritten | MimeTypes.GuessMeetsIntent |
| src/Ignite/Container/ParameterCollection/ParameterCollection.php:179 | the callback reads the undefined property `$this->isResolved`, which is null, so an embedded value is resolved again even in a resolved collection | in a resolved collection where `y` holds `%x%`, the string `a-%y%` fails on the missing `x` | once resolved, the stored text is used as it is, giving `a-%x%` | high; not executed | Parameters.EmbeddedResolvedAgainAsWritten | Parameters.EmbeddedFinalOnceResolved |
| src/Ignite/Foundation/Application.php:85 | `$this->appPath ?:` reads the typed property before anything assigns it, which throws | `new Application('/srv/app')` fails in setBasePath | without a chosen directory the app path is the base path's `app` entry | high; not executed | Foundation.AppPathUnsetAsWritten | Foundation.AppPathUnderBase |
