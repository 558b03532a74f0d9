/**
 * The route definition consumed by the routing engine: a pattern such as
 * `/blog/{slug}`, default values, per-variable requirement regexes and
 * options. The engine reads it through getPattern, getDefaults,
 * getRequirement, hasDefault and setPattern; the Route class of the
 * repository does not define those accessors, so the definition is
 * modelled here as a value.
 */
module Routes {
  import opened Wrappers

  datatype RouteDefinition = RouteDefinition(
    pattern: string,
    defaults: map<string, string>,
    requirements: map<string, string>,
    options: map<string, string>)
  {
    /** getRequirement: the declared requirement, or null when there is none. */
    function Requirement(name: string): (r: Option<string>)
      ensures r.Some? <==> name in requirements
      ensures r.Some? ==> r.value == requirements[name]
    {
      if name in requirements then Some(requirements[name]) else None
    }

    predicate HasDefault(name: string) {
      name in defaults
    }

    /** setPattern: only the pattern changes. */
    function WithPattern(p: string): (r: RouteDefinition)
      ensures r.pattern == p
      ensures r.defaults == defaults && r.requirements == requirements && r.options == options
    {
      this.(pattern := p)
    }
  }
}
