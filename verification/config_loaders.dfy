/**
 * Configuration loaders (src/Ignite/Config/Loader/LoaderResolver.php and
 * src/Ignite/Config/Loader/Loader.php): a resolver keeps loaders in the
 * order they were added, and a resource goes to the first loader that
 * supports it. Each loader points back to the resolver it was added to.
 *
 * Loader is abstract in the framework: what a concrete loader supports is
 * the parameter `supports`, a resource is a string and its type an
 * optional string.
 */
module ConfigLoaders {
  import opened Wrappers

  type Supports = (Loader, string, Option<string>) -> bool

  /** The position of the first loader that supports the resource. */
  function FirstSupporting(ls: seq<Loader>, supports: Supports, resource: string, typ: Option<string>): (r: Option<nat>)
    ensures r.Some? ==> r.value < |ls| && supports(ls[r.value], resource, typ)
    ensures r.Some? ==> forall j :: 0 <= j < r.value ==> !supports(ls[j], resource, typ)
    ensures r.None? ==> forall j :: 0 <= j < |ls| ==> !supports(ls[j], resource, typ)
  {
    if |ls| == 0 then None
    else if supports(ls[0], resource, typ) then Some(0)
    else match FirstSupporting(ls[1..], supports, resource, typ)
      case None => None
      case Some(i) => Some(i + 1)
  }

  /** The loader resolve returns: the first that supports the resource, or none (false). */
  function Chosen(ls: seq<Loader>, supports: Supports, resource: string, typ: Option<string>): Option<Loader> {
    match FirstSupporting(ls, supports, resource, typ)
    case Some(i) => Some(ls[i])
    case None => None
  }

  class Loader {
    var resolver: LoaderResolver?

    constructor()
      ensures resolver == null
    {
      resolver := null;
    }

    method GetResolver() returns (r: LoaderResolver?)
      ensures r == resolver
    {
      r := resolver;
    }

    method SetResolver(r: LoaderResolver)
      modifies this`resolver
      ensures resolver == r
    {
      resolver := r;
    }

    /**
     * resolve: this loader when it supports the resource, else what its
     * resolver chooses, else none. A resource nobody supports yields none
     * (false); the exception meant for it is not thrown.
     */
    method Resolve(resource: string, typ: Option<string>, supports: Supports) returns (r: Option<Loader>)
      ensures supports(this, resource, typ) ==> r == Some(this)
      ensures !supports(this, resource, typ) && resolver == null ==> r == None
      ensures !supports(this, resource, typ) && resolver != null ==>
        r == Chosen(resolver.loaders, supports, resource, typ)
    {
      if supports(this, resource, typ) {
        return Some(this);
      }
      if resolver == null {
        return None;
      }
      r := resolver.Resolve(resource, typ, supports);
    }
  }

  class LoaderResolver {
    var loaders: seq<Loader>

    /** The loaders are added in the given order, each pointed back at this resolver. */
    constructor(ls: seq<Loader>)
      modifies set l | l in ls
      ensures loaders == ls
      ensures forall l :: l in ls ==> l.resolver == this
    {
      loaders := [];
      new;
      for i := 0 to |ls|
        invariant loaders == ls[..i]
        invariant forall j :: 0 <= j < i ==> ls[j].resolver == this
      {
        AddLoader(ls[i]);
      }
    }

    /** resolve: the first loader, in the order added, that supports the resource; none (false) if there is none. */
    method Resolve(resource: string, typ: Option<string>, supports: Supports) returns (r: Option<Loader>)
      ensures r == Chosen(loaders, supports, resource, typ)
    {
      for i := 0 to |loaders|
        invariant forall j :: 0 <= j < i ==> !supports(loaders[j], resource, typ)
      {
        if supports(loaders[i], resource, typ) {
          FirstSupportingAt(loaders, supports, resource, typ, i);
          return Some(loaders[i]);
        }
      }
      return None;
    }

    /** addLoader: appends the loader and points it back at this resolver. */
    method AddLoader(l: Loader)
      modifies this`loaders, l`resolver
      ensures loaders == old(loaders) + [l] && l.resolver == this
    {
      loaders := loaders + [l];
      l.SetResolver(this);
    }

    method GetLoaders() returns (ls: seq<Loader>)
      ensures ls == loaders
    {
      ls := loaders;
    }
  }

  lemma FirstSupportingAt(ls: seq<Loader>, supports: Supports, resource: string, typ: Option<string>, i: nat)
    requires i < |ls| && supports(ls[i], resource, typ)
    requires forall j :: 0 <= j < i ==> !supports(ls[j], resource, typ)
    ensures FirstSupporting(ls, supports, resource, typ) == Some(i)
  {
    assert FirstSupporting(ls, supports, resource, typ).Some?;
  }

  /** Adding a loader never changes the choice for a resource an earlier loader supports. */
  lemma EarlierLoaderKeepsResource(ls: seq<Loader>, l: Loader, supports: Supports, resource: string, typ: Option<string>)
    requires Chosen(ls, supports, resource, typ).Some?
    ensures Chosen(ls + [l], supports, resource, typ) == Chosen(ls, supports, resource, typ)
  {
    var i := FirstSupporting(ls, supports, resource, typ).value;
    FirstSupportingAt(ls + [l], supports, resource, typ, i);
  }

  /** A loader added last gets exactly the resources it supports and no earlier loader does. */
  lemma AddedLoaderTakesTheRest(ls: seq<Loader>, l: Loader, supports: Supports, resource: string, typ: Option<string>)
    requires Chosen(ls, supports, resource, typ).None?
    ensures Chosen(ls + [l], supports, resource, typ) == if supports(l, resource, typ) then Some(l) else None
  {
    if supports(l, resource, typ) {
      FirstSupportingAt(ls + [l], supports, resource, typ, |ls|);
    } else {
      assert forall j :: 0 <= j < |ls + [l]| ==> !supports((ls + [l])[j], resource, typ);
    }
  }
}
