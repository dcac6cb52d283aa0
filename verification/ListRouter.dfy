/**
 * The inline routers: routes in a list that grows at its head, matched by string prefix and
 * dispatched by index. The top router holds interfaces this way, and each interface its services.
 */
module ListRouter {
  import opened Wrappers
  import opened Paths

  datatype RouteValues<H> = Nil | Cons(prefix: string, handler: H, tail: RouteValues<H>) {
    function Count(): nat {
      if Nil? then 0 else 1 + tail.Count()
    }

    /** The prefix at an index; index 0 is the most recently registered. */
    function PrefixAt(index: nat): string
      requires index < Count()
    {
      if index == 0 then prefix else tail.PrefixAt(index - 1)
    }

    function HandlerAt(index: nat): H
      requires index < Count()
    {
      if index == 0 then handler else tail.HandlerAt(index - 1)
    }
  }

  function Register<H>(routes: RouteValues<H>, prefix: string, handler: H): RouteValues<H> {
    Cons(Trim(prefix), handler, routes)
  }

  /** The index and reach of the best route; the head wins a tie. */
  function MatchRoute<H>(routes: RouteValues<H>, location: string): Option<(nat, nat)> {
    match routes
    case Nil => None
    case Cons(prefix, _, tail) =>
      match (PathPrefixLen(prefix, location), MatchRoute(tail, location))
      case (Some(headLen), Some((tailIndex, tailLen))) =>
        if headLen >= tailLen then Some((0, headLen)) else Some((tailIndex + 1, tailLen))
      case (Some(headLen), None) => Some((0, headLen))
      case (None, Some((tailIndex, tailLen))) => Some((tailIndex + 1, tailLen))
      case (None, None) => None
  }

  /** What dispatch does at an index: run a handler, or fall off the end of the list and run nothing. */
  datatype Dispatch<H> = Ran(handler: H) | RanNothing

  function DispatchAt<H>(routes: RouteValues<H>, index: nat): Dispatch<H> {
    match routes
    case Nil => RanNothing
    case Cons(_, handler, tail) => if index == 0 then Ran(handler) else DispatchAt(tail, index - 1)
  }

  /** Whether the route at `index` matches and how far. */
  function Reach<H>(routes: RouteValues<H>, index: nat, location: string): Option<nat>
    requires index < routes.Count()
  {
    PathPrefixLen(routes.PrefixAt(index), location)
  }

  /** The index is the most recently registered among the routes that reach furthest. */
  ghost predicate IsBest<H>(routes: RouteValues<H>, location: string, index: nat, len: nat) {
    && index < routes.Count()
    && Reach(routes, index, location) == Some(len)
    && (forall j :: 0 <= j < routes.Count() && Reach(routes, j, location).Some? ==>
          Reach(routes, j, location).value <= len)
    && (forall j :: 0 <= j < index && Reach(routes, j, location).Some? ==> Reach(routes, j, location).value < len)
  }

  lemma {:induction false} MatchRouteIsBest<H>(routes: RouteValues<H>, location: string)
    ensures match MatchRoute(routes, location)
      case None => forall j :: 0 <= j < routes.Count() ==> Reach(routes, j, location).None?
      case Some((index, len)) => IsBest(routes, location, index, len)
  {
    if routes.Cons? {
      var tail := routes.tail;
      MatchRouteIsBest(tail, location);
      forall j | 0 < j < routes.Count()
        ensures Reach(routes, j, location) == Reach(tail, j - 1, location)
      {
      }
      if MatchRoute(tail, location).Some? {
        var (index, len) := MatchRoute(tail, location).value;
        assert Reach(routes, index + 1, location) == Some(len);
      }
    }
  }

  /** Two routes that reach equally far have the same trimmed prefix. */
  lemma EqualReachIsEqualPrefix(p: string, q: string, location: string)
    requires PathPrefixLen(p, location).Some? && PathPrefixLen(p, location) == PathPrefixLen(q, location)
    ensures Trim(p) == Trim(q)
  {
    var loc := Trim(location);
    assert Trim(p) == loc[..|Trim(p)|] && Trim(q) == loc[..|Trim(q)|];
  }

  lemma {:induction false} DispatchRuns<H>(routes: RouteValues<H>, index: nat)
    ensures DispatchAt(routes, index) == if index < routes.Count() then Ran(routes.HandlerAt(index)) else RanNothing
  {
    if routes.Cons? && index > 0 {
      DispatchRuns(routes.tail, index - 1);
    }
  }

  /** Dispatch at a matched index runs the handler registered there. */
  lemma MatchedDispatchRuns<H>(routes: RouteValues<H>, location: string)
    requires MatchRoute(routes, location).Some?
    ensures var (index, len) := MatchRoute(routes, location).value;
      && IsBest(routes, location, index, len)
      && DispatchAt(routes, index) == Ran(routes.HandlerAt(index))
  {
    MatchRouteIsBest(routes, location);
    DispatchRuns(routes, MatchRoute(routes, location).value.0);
  }

  /** Drop the interface prefix; what is left is the service path. */
  function StripInterfacePrefix(interface: string, location: string): Option<string> {
    var interface := Trim(interface);
    var location := Trim(location);
    if interface == "" then Some(location)
    else if !(interface <= location) then None
    else
      var rest := location[|interface|..];
      if rest == "" then Some("") else if rest[0] == '/' then Some(rest[1..]) else None
  }

  /** One interface as the top router holds it: its own path and its services. */
  datatype Interface<V> = Interface(path: string, services: RouteValues<V>)

  datatype Routing<V> = NotFound | Service(value: V) | Nothing

  /** The service part of the way: match and dispatch inside one interface. */
  function RouteInside<V>(services: RouteValues<V>, rest: string): Routing<V> {
    match MatchRoute(services, rest)
    case None => NotFound
    case Some((index, _)) =>
      match DispatchAt(services, index)
      case RanNothing => Nothing
      case Ran(value) => Service(value)
  }

  /** The way of a request: top match and dispatch, prefix off, service match and dispatch. */
  function Route<V>(routes: RouteValues<Interface<V>>, location: string): Routing<V> {
    match MatchRoute(routes, location)
    case None => NotFound
    case Some((index, _)) =>
      match DispatchAt(routes, index)
      case RanNothing => Nothing
      case Ran(interface) =>
        match StripInterfacePrefix(interface.path, location)
        case None => NotFound
        case Some(rest) => RouteInside(interface.services, rest)
  }

  /** Every interface is registered under its own path. */
  ghost predicate UnderOwnPath<V>(routes: RouteValues<Interface<V>>) {
    forall i :: 0 <= i < routes.Count() ==> routes.PrefixAt(i) == Trim(routes.HandlerAt(i).path)
  }

  /** The prefix that matched a location can be taken off it. */
  lemma MatchedPrefixStrips(prefix: string, location: string)
    requires PathPrefixLen(prefix, location).Some?
    ensures StripInterfacePrefix(prefix, location).Some?
  {
    var p, l := Trim(prefix), Trim(location);
    if p != "" && |l| > |p| {
      assert l[|p|..][0] == l[|p|];
    }
  }

  /**
   * A request either runs a service or is answered "not found": it never falls through silently. An
   * interface mounted under its own path is never missed by taking that path off.
   */
  lemma RouteNeverFallsThrough<V>(routes: RouteValues<Interface<V>>, location: string)
    ensures Route(routes, location) != Nothing
    ensures UnderOwnPath(routes) && MatchRoute(routes, location).Some? ==>
      StripInterfacePrefix(routes.HandlerAt(BestIndex(routes, location)).path, location).Some?
  {
    if MatchRoute(routes, location).Some? {
      MatchedDispatchRuns(routes, location);
      var interface := routes.HandlerAt(BestIndex(routes, location));
      if UnderOwnPath(routes) {
        TrimIsTrimmed(interface.path);
        MatchedPrefixStrips(interface.path, location);
      }
      var rest := StripInterfacePrefix(interface.path, location);
      if rest.Some? && MatchRoute(interface.services, rest.value).Some? {
        MatchedDispatchRuns(interface.services, rest.value);
      }
    }
  }

  function BestIndex<H>(routes: RouteValues<H>, location: string): (index: nat)
    requires MatchRoute(routes, location).Some?
    ensures index < routes.Count()
  {
    MatchRouteIsBest(routes, location);
    MatchRoute(routes, location).value.0
  }
}
