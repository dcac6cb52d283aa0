/** Client-side composition of a location and the way it takes on the server. */
module Locations {
  import opened Wrappers
  import opened Paths
  import opened ListRouter

  function ConcatLocation(interface: string, service: string): string {
    var interface := Trim(interface);
    var service := Trim(service);
    if interface == "" && service == "" then "/"
    else if interface == "" then "/" + service
    else if service == "" then "/" + interface + "/"
    else "/" + interface + "/" + service
  }

  lemma TrimStartSlash(s: string)
    requires s == "" || s[0] != '/'
    ensures TrimStart("/" + s) == s
  {
    assert ("/" + s)[1..] == s;
  }

  lemma TrimWrapped(s: string)
    requires Trimmed(s)
    ensures Trim("/" + s) == s && Trim("/" + s + "/") == s
  {
    TrimStartSlash(s);
    assert "/" + s + "/" == "/" + (s + "/");
    assert ("/" + (s + "/"))[1..] == s + "/";
    if s != "" {
      TrimStartSlash(s + "/");
    } else {
      assert s + "/" == "/" && "/"[1..] == "";
    }
    assert (s + "/")[..|s|] == s;
  }

  /** The trimmed location is the two trimmed parts with one slash between them. */
  lemma ConcatTrims(interface: string, service: string)
    ensures var i, s := Trim(interface), Trim(service);
      Trim(ConcatLocation(interface, service)) ==
        if i == "" then s else if s == "" then i else i + "/" + s
  {
    var i, s := Trim(interface), Trim(service);
    TrimIsTrimmed(interface);
    TrimIsTrimmed(service);
    if i == "" || s == "" {
      TrimWrapped(if i == "" then s else i);
    } else {
      var both := i + "/" + s;
      assert both[0] == i[0] && both[|both| - 1] == s[|s| - 1];
      assert "/" + i + "/" + s == "/" + both;
      TrimWrapped(both);
    }
  }

  /** Around its parts a composed location has one slash in front, and one behind when there is no service. */
  lemma ConcatSlashes(interface: string, service: string)
    ensures var i, s, location := Trim(interface), Trim(service), ConcatLocation(interface, service);
      && |location| == |i| + |s| + (if i == "" then 1 else 2) && location[0] == '/'
      && (location[|location| - 1] == '/' <==> s == "")
  {
    TrimIsTrimmed(service);
  }

  /** Taking the interface off a composed location gives the service back, empty parts included. */
  lemma StripUndoesConcat(interface: string, service: string)
    ensures StripInterfacePrefix(interface, ConcatLocation(interface, service)) == Some(Trim(service))
  {
    var i, s := Trim(interface), Trim(service);
    ConcatTrims(interface, service);
    var loc := Trim(ConcatLocation(interface, service));
    if i != "" && s != "" {
      assert i + "/" + s == i + ("/" + s);
      assert loc[|i|..] == "/" + s;
    }
  }

  /** The interface itself always reaches into the locations composed from it. */
  lemma ConcatReaches(interface: string, service: string)
    ensures PathPrefixLen(interface, ConcatLocation(interface, service)) == Some(|Trim(interface)|)
  {
    ConcatTrims(interface, service);
    var i, s := Trim(interface), Trim(service);
    if i != "" && s != "" {
      assert (i + "/" + s)[|i|] == '/';
    }
  }

  /** Whether the interface is the one a composed location belongs to: no other reaches further. */
  ghost predicate NoLongerInterface<V>(routes: RouteValues<Interface<V>>, interface: string, location: string) {
    forall j :: 0 <= j < routes.Count() && Reach(routes, j, location).Some? ==>
      Reach(routes, j, location).value <= |Trim(interface)|
  }

  /** The most recently registered route under a trimmed path. */
  ghost predicate Latest<H>(routes: RouteValues<H>, index: nat, path: string) {
    && index < routes.Count() && Trim(routes.PrefixAt(index)) == Trim(path)
    && forall j :: 0 <= j < index ==> Trim(routes.PrefixAt(j)) != Trim(path)
  }

  /** A list matches the latest route under a path when none reaches further. */
  lemma MatchesLatest<H>(routes: RouteValues<H>, index: nat, path: string, location: string)
    requires Latest(routes, index, path) && PathPrefixLen(path, location) == Some(|Trim(path)|)
    requires forall j :: 0 <= j < routes.Count() && Reach(routes, j, location).Some? ==>
      Reach(routes, j, location).value <= |Trim(path)|
    ensures MatchRoute(routes, location) == Some((index, |Trim(path)|))
    ensures DispatchAt(routes, index) == Ran(routes.HandlerAt(index))
  {
    TrimIsTrimmed(path);
    assert Reach(routes, index, location) == Some(|Trim(path)|);
    MatchRouteIsBest(routes, location);
    MatchedDispatchRuns(routes, location);
    var (best, len) := MatchRoute(routes, location).value;
    if best != index {
      EqualReachIsEqualPrefix(routes.PrefixAt(best), path, location);
    }
  }

  /**
   * A location composed for a registered interface and service runs a service registered under
   * that path, unless another registered interface reaches further into the location.
   */
  lemma ComposedLocationArrives<V>(routes: RouteValues<Interface<V>>, index: nat, service: nat,
                                   interface: string, path: string)
    requires UnderOwnPath(routes) && Latest(routes, index, interface)
    requires NoLongerInterface(routes, interface, ConcatLocation(interface, path))
    requires Latest(routes.HandlerAt(index).services, service, path)
    ensures Route(routes, ConcatLocation(interface, path)) ==
      ListRouter.Service(routes.HandlerAt(index).services.HandlerAt(service))
  {
    var location := ConcatLocation(interface, path);
    ConcatReaches(interface, path);
    MatchesLatest(routes, index, interface, location);
    var found := routes.HandlerAt(index);
    TrimIsTrimmed(interface);
    TrimIsTrimmed(found.path);
    StripUndoesConcat(interface, path);
    assert Trim(found.path) == Trim(interface);
    var rest := Trim(path);
    TrimIsTrimmed(path);
    assert PathPrefixLen(path, rest) == Some(|rest|);
    assert forall j :: 0 <= j < found.services.Count() && Reach(found.services, j, rest).Some? ==>
      Reach(found.services, j, rest).value <= |rest|;
    MatchesLatest(found.services, service, path, rest);
  }
}
