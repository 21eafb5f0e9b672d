/**
 * The dependency-injection container: a named registry of service
 * instances.  The JavaScript `Map` it wraps remembers the order in which
 * names were first registered, which `list()` reports; that order is kept
 * here as `names` beside the map itself.
 */
module Container {
  import opened Wrappers
  import opened Js
  import opened Collections

  const VoteServiceId: string := "VoteService"
  const CountryServiceId: string := "CountryService"

  function NotFound(name: string): string
  {
    "Service " + name + " not found in container"
  }

  /** What `get(name)` hands back for a registry `m`: a missing or falsy entry throws. */
  function Resolve<S>(m: map<string, JsValue<S>>, name: string): (r: Result<JsValue<S>, string>)
    ensures r.Success? <==> name in m && Truthy(m[name])
    ensures r.Success? ==> r.value == m[name]
    ensures r.Failure? ==> r.error == NotFound(name)
  {
    if name in m && Truthy(m[name]) then Success(m[name]) else Failure(NotFound(name))
  }

  class Container<S> {
    var services: map<string, JsValue<S>>
    /** The keys of `services` in first-registration order. */
    var names: seq<string>

    ghost predicate Valid()
      reads this
    {
      && Distinct(names)
      && (forall n :: n in names <==> n in services)
    }

    constructor ()
      ensures Valid() && services == map[] && names == []
    {
      services := map[];
      names := [];
    }

    /** `register(name, service)`: replaces any earlier instance, keeping the name's place in the order. */
    method Register(name: string, service: JsValue<S>)
      requires Valid()
      modifies this
      ensures Valid()
      ensures services == old(services)[name := service]
      ensures names == if name in old(names) then old(names) else old(names) + [name]
    {
      if name !in names {
        names := names + [name];
      }
      services := services[name := service];
    }

    /** `get(name)`. */
    function Get(name: string): (r: Result<JsValue<S>, string>)
      reads this
      ensures r.Success? <==> name in services && Truthy(services[name])
      ensures r.Success? ==> r.value == services[name]
      ensures r.Failure? ==> r.error == NotFound(name)
    {
      Resolve(services, name)
    }

    /** `has(name)`: registered at all, even with a falsy instance. */
    function Has(name: string): (b: bool)
      reads this
      requires Valid()
      ensures b <==> name in services
      ensures b <==> name in names
    {
      name in services
    }

    method Clear()
      modifies this
      ensures Valid() && services == map[] && names == []
    {
      services := map[];
      names := [];
    }

    /** `list()`: every registered name once, in first-registration order. */
    function List(): (ns: seq<string>)
      reads this
      requires Valid()
      ensures Distinct(ns)
      ensures forall n :: n in ns <==> n in services
      ensures |ns| == |services|
    {
      DistinctKeysCount(names, services);
      names
    }
  }

  /** A registered truthy instance is what `get` returns, until it is replaced. */
  lemma RegisteredIsResolved<S>(m: map<string, JsValue<S>>, name: string, service: JsValue<S>, other: string)
    requires Truthy(service)
    ensures Resolve(m[name := service], name) == Success(service)
    ensures other != name ==> Resolve(m[name := service], other) == Resolve(m, other)
  {
  }

  /** A falsy instance (`null`, `0`, `''`, `false`) is registered for `has` but not found by `get`. */
  lemma FalsyInstanceIsNotFound<S>(m: map<string, JsValue<S>>, name: string, service: JsValue<S>)
    requires !Truthy(service)
    ensures name in m[name := service]
    ensures Resolve(m[name := service], name) == Failure(NotFound(name))
  {
  }

  /** After `clear()`, nothing resolves. */
  lemma NothingResolvesWhenEmpty<S>(m: map<string, JsValue<S>>, name: string)
    requires m == map[]
    ensures Resolve(m, name).Failure?
  {
  }
}
