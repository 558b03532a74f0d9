/**
 * CompiledRoute (src/Ignite/Routing/CompiledRoute.php): the immutable record
 * the compiler returns. Its token list is stored last-declared-token first.
 */
module CompiledRoutes {
  import opened Routes

  /**
   * A text token `[text, literal]` or a variable token
   * `[variable, separator, regex, name]`.
   */
  datatype Token =
    | Text(literal: string)
    | Variable(separator: char, regex: string, name: string)

  datatype CompiledRoute = CompiledRoute(
    route: RouteDefinition,
    staticPrefix: string,
    regex: string,
    tokens: seq<Token>,
    variables: seq<string>)
  {
    /** getPattern, getDefaults, getRequirements and getOptions read the route. */
    function Pattern(): string {
      route.pattern
    }

    function Defaults(): map<string, string> {
      route.defaults
    }

    function Requirements(): map<string, string> {
      route.requirements
    }

    function Options(): map<string, string> {
      route.options
    }
  }

  /** Getters of a record built from given parts return exactly those parts. */
  lemma GettersReturnConstructorArguments(
    route: RouteDefinition, staticPrefix: string, regex: string,
    tokens: seq<Token>, variables: seq<string>)
    ensures var c := CompiledRoute(route, staticPrefix, regex, tokens, variables);
      && c.route == route && c.staticPrefix == staticPrefix && c.regex == regex
      && c.tokens == tokens && c.variables == variables
      && c.Pattern() == route.pattern && c.Defaults() == route.defaults
      && c.Requirements() == route.requirements && c.Options() == route.options
  {
  }
}
