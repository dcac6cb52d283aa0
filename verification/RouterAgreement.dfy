/** The trie router and the inline list routers, fed the same registrations, answer alike. */
module RouterAgreement {
  import opened Wrappers
  import opened Octets
  import opened Paths
  import opened LongestMatch
  import opened PathTrie
  import opened TrieRouter
  import opened ListRouter

  /** What one application registers: interfaces in order, each with its services in order. */
  type Services<V> = seq<(string, V)>
  type Registry<V> = seq<(string, Services<V>)>

  /** Every path is slash-normalised and no two of one level are the same. */
  ghost predicate WellFormed<V>(reg: Registry<V>) {
    && Distinct(reg)
    && forall i :: 0 <= i < |reg| ==> Normal(reg[i].0) && WellFormedServices(reg[i].1)
  }

  ghost predicate WellFormedServices<V>(services: Services<V>) {
    Distinct(services) && forall i :: 0 <= i < |services| ==> Normal(services[i].0)
  }

  /** Services as the list router is built from them. */
  function ServiceList<V>(services: Services<V>): RouteValues<V> {
    if services == [] then Nil
    else
      var n := |services| - 1;
      RouteValues.Cons(services[n].0, services[n].1, ServiceList(services[..n]))
  }

  function InterfaceList<V>(reg: Registry<V>): RouteValues<ListRouter.Interface<V>> {
    if reg == [] then Nil
    else
      var n := |reg| - 1;
      Register(InterfaceList(reg[..n]), reg[n].0, ListRouter.Interface(reg[n].0, ServiceList(reg[n].1)))
  }

  /** The trie that registering one interface after the other builds. */
  function InterfaceTrie<V>(reg: Registry<V>): TrieNode<TrieNode<V>> {
    if reg == [] then Empty()
    else
      var n := |reg| - 1;
      InsertAt(InterfaceTrie(reg[..n]), SegmentsOf(reg[n].0), InsertAll(reg[n].1))
  }

  /** Registering through the trie router builds that trie. */
  method RegisterAll<V>(reg: Registry<V>) returns (router: RpcRouter<V>)
    requires WellFormed(reg)
    ensures router.interfaces.root == InterfaceTrie(reg)
  {
    router := new RpcRouter<V>();
    var i := 0;
    while i < |reg|
      invariant i <= |reg| && fresh(router) && fresh(router.interfaces)
      invariant router.interfaces.root == InterfaceTrie(reg[..i])
    {
      assert reg[..i + 1][..i] == reg[..i];
      TrieHolds(reg[..i], SegmentsOf(reg[i].0));
      var res := router.AddInterface(reg[i].0, reg[i].1);
      assert res.Ok?;
      i := i + 1;
    }
    assert reg[..i] == reg;
  }

  /** The last entry with these segments. */
  function Entry<V>(reg: seq<(string, V)>, segs: Segments): Option<V> {
    LastInserted(reg, segs)
  }

  lemma {:induction false} TrieHolds<V>(reg: Registry<V>, segs: Segments)
    ensures At(InterfaceTrie(reg), segs) ==
      match Entry(reg, segs) case None => None case Some(services) => Some(InsertAll(services))
    ensures Entry(reg, segs).Some? <==> exists i :: 0 <= i < |reg| && SegmentsOf(reg[i].0) == segs
  {
    LastInsertedFinds(reg, segs);
    if reg != [] {
      var n := |reg| - 1;
      TrieHolds(reg[..n], segs);
      InsertAtLaw(InterfaceTrie(reg[..n]), SegmentsOf(reg[n].0), InsertAll(reg[n].1), segs);
    } else {
      assert At(Empty<TrieNode<V>>(), segs) == None;
    }
  }

  /** A list of routes that stands for a sequence of registrations, latest first. */
  ghost predicate Lists<H, V>(routes: RouteValues<H>, reg: seq<(string, V)>, handler: ((string, V)) -> H) {
    && routes.Count() == |reg|
    && forall i :: 0 <= i < |reg| ==>
      (routes.PrefixAt(i) == reg[|reg| - 1 - i].0 && routes.HandlerAt(i) == handler(reg[|reg| - 1 - i]))
  }

  lemma {:induction false} ServicesListed<V>(services: Services<V>)
    ensures Lists(ServiceList(services), services, (entry: (string, V)) => entry.1)
  {
    if services != [] {
      var n := |services| - 1;
      ServicesListed(services[..n]);
      var list := ServiceList(services);
      forall i | 0 < i <= n
        ensures list.PrefixAt(i) == services[n - i].0 && list.HandlerAt(i) == services[n - i].1
      {
        assert services[..n][n - i] == services[n - i];
      }
    }
  }

  function AsInterface<V>(entry: (string, Services<V>)): ListRouter.Interface<V> {
    ListRouter.Interface(entry.0, ServiceList(entry.1))
  }

  lemma {:induction false} InterfacesListed<V>(reg: Registry<V>)
    requires forall i :: 0 <= i < |reg| ==> Normal(reg[i].0)
    ensures Lists(InterfaceList(reg), reg, (entry: (string, Services<V>)) => AsInterface(entry))
  {
    if reg != [] {
      var n := |reg| - 1;
      InterfacesListed(reg[..n]);
      NormalIsTrimmed(reg[n].0);
      var list := InterfaceList(reg);
      forall i | 0 < i <= n
        ensures list.PrefixAt(i) == reg[n - i].0 && list.HandlerAt(i) == AsInterface(reg[n - i])
      {
        assert reg[..n][n - i] == reg[n - i];
        assert list.PrefixAt(i) == InterfaceList(reg[..n]).PrefixAt(i - 1);
        assert list.HandlerAt(i) == InterfaceList(reg[..n]).HandlerAt(i - 1);
      }
    }
  }

  ghost function Registered<V>(reg: seq<(string, V)>): Segments -> bool {
    p => Entry(reg, p).Some?
  }

  /** Among distinct registrations each is found under its own segments. */
  lemma {:induction false} EntryOf<V>(reg: seq<(string, V)>, k: nat)
    requires k < |reg| && Distinct(reg)
    ensures Entry(reg, SegmentsOf(reg[k].0)) == Some(reg[k].1)
  {
    var n := |reg| - 1;
    if k < n {
      assert reg[..n][k] == reg[k];
      EntryOf(reg[..n], k);
    }
  }

  /** On a normalised location the best route of a list is the longest registered front of its segments. */
  lemma BestRouteIsLongest<H, V>(routes: RouteValues<H>, reg: seq<(string, V)>,
                                 handler: ((string, V)) -> H, location: string, index: nat, len: nat)
    requires Lists(routes, reg, handler) && Distinct(reg)
    requires forall i :: 0 <= i < |reg| ==> Normal(reg[i].0)
    requires Normal(Trim(location)) && IsBest(routes, location, index, len)
    ensures var segs := SegmentsOf(location);
      var path := routes.PrefixAt(index);
      && Normal(path) && SegmentsOf(path) <= segs
      && Longest(Registered(reg), segs) == Some(|SegmentsOf(path)|)
      && Entry(reg, SegmentsOf(path)).Some?
      && routes.HandlerAt(index) == handler((path, Entry(reg, SegmentsOf(path)).value))
  {
    var segs, k := SegmentsOf(location), |reg| - 1 - index;
    var path := reg[k].0;
    ReachBySegments(path, location);
    var d := |SegmentsOf(path)|;
    assert segs[..d] == SegmentsOf(path);
    EntryOf(reg, k);
    assert reg[k] == (path, reg[k].1);
    forall n | d < n <= |segs|
      ensures !Registered(reg)(segs[..n])
    {
      LastInsertedFinds(reg, segs[..n]);
      forall m | 0 <= m < |reg|
        ensures SegmentsOf(reg[m].0) != segs[..n]
      {
        if SegmentsOf(reg[m].0) == segs[..n] {
          NoLongerRoute(routes, reg, handler, location, index, len, m);
        }
      }
    }
    LongestIs(Registered(reg), segs, d);
  }

  /** What a normal path reaches on a location, told by segments. */
  lemma ReachBySegments(path: string, location: string)
    requires Normal(path) && Normal(Trim(location))
    ensures PathPrefixLen(path, location) ==
      if SegmentsOf(path) <= SegmentsOf(location) then Some(|path|) else None
  {
    TrimSegments(location);
    TrimIsTrimmed(location);
    PrefixMatchesSegments(path, Trim(location));
  }

  /** No registration longer than the best route covers the location. */
  lemma NoLongerRoute<H, V>(routes: RouteValues<H>, reg: seq<(string, V)>,
                            handler: ((string, V)) -> H, location: string,
                                                index: nat, len: nat, m: nat)
    requires Lists(routes, reg, handler) && m < |reg|
    requires forall i :: 0 <= i < |reg| ==> Normal(reg[i].0)
    requires Normal(Trim(location)) && IsBest(routes, location, index, len)
    requires SegmentsOf(reg[m].0) <= SegmentsOf(location)
    ensures |SegmentsOf(reg[m].0)| <= |SegmentsOf(routes.PrefixAt(index))|
  {
    var p, q, j := reg[m].0, routes.PrefixAt(index), |reg| - 1 - m;
    assert routes.PrefixAt(j) == p && q == reg[|reg| - 1 - index].0;
    ReachBySegments(p, location);
    ReachBySegments(q, location);
    assert Reach(routes, j, location) == Some(|p|);
    LongerBySegmentsIsLonger(p, q, SegmentsOf(location));
  }

  /** When no route matches, no front of the location is registered. */
  lemma NoRouteIsNoneRegistered<H, V>(routes: RouteValues<H>, reg: seq<(string, V)>,
                                      handler: ((string, V)) -> H, location: string)
    requires Lists(routes, reg, handler)
    requires forall i :: 0 <= i < |reg| ==> Normal(reg[i].0)
    requires Normal(Trim(location)) && MatchRoute(routes, location).None?
    ensures Longest(Registered(reg), SegmentsOf(location)).None?
  {
    var segs := SegmentsOf(location);
    forall n | 0 <= n <= |segs|
      ensures !Registered(reg)(segs[..n])
    {
      LastInsertedFinds(reg, segs[..n]);
      forall m | 0 <= m < |reg|
        ensures SegmentsOf(reg[m].0) != segs[..n]
      {
        NoRouteMisses(routes, reg, handler, location, m);
      }
    }
  }

  lemma NoRouteMisses<H, V>(routes: RouteValues<H>, reg: seq<(string, V)>,
                            handler: ((string, V)) -> H, location: string, m: nat)
    requires Lists(routes, reg, handler) && m < |reg| && Normal(reg[m].0)
    requires Normal(Trim(location)) && MatchRoute(routes, location).None?
    ensures !(SegmentsOf(reg[m].0) <= SegmentsOf(location))
  {
    MatchRouteIsBest(routes, location);
    var j := |reg| - 1 - m;
    assert routes.PrefixAt(j) == reg[m].0 && Reach(routes, j, location).None?;
    ReachBySegments(reg[m].0, location);
  }

  /** Taking a normal path off a normalised location leaves the segments after it. */
  lemma StripLeavesRest(path: string, location: string)
    requires Normal(path) && Normal(Trim(location)) && SegmentsOf(path) <= SegmentsOf(location)
    ensures var rest := StripInterfacePrefix(path, location);
      && rest.Some? && Normal(rest.value) && Trim(rest.value) == rest.value
      && SegmentsOf(rest.value) == SegmentsOf(location)[|SegmentsOf(path)|..]
  {
    var loc, p := Trim(location), SegmentsOf(path);
    TrimSegments(location);
    NormalIsTrimmed(path);
    var rest := SegmentsOf(loc)[|p|..];
    assert SegmentsOf(loc) == p + rest;
    SegmentsAreSegments(loc);
    JoinSegments(rest);
    NormalIsTrimmed(Join(rest));
    if path == "" {
      OneSegment("");
      assert [] + rest == rest;
    } else if rest == [] {
      assert p + rest == p;
    } else {
      JoinAppend(p, rest);
      Associate(path, "/", Join(rest));
      assert loc[|path|..] == "/" + Join(rest);
    }
  }

  /** At the service level both routers find the same value. */
  lemma ServicesAgree<V>(services: Services<V>, rest: string)
    requires WellFormedServices(services) && Normal(Trim(rest))
    ensures var list := ServiceList(services);
      var best := Best(InsertAll(services), SegmentsOf(rest));
      match MatchRoute(list, rest)
      case None => best.None?
      case Some((index, _)) => best.Some? && DispatchAt(list, index) == Ran(best.value.0)
  {
    var list, segs := ServiceList(services), SegmentsOf(rest);
    var handler := (entry: (string, V)) => entry.1;
    ServicesListed(services);
    forall p: Segments {
      InsertsRepresentMap(services, p);
    }
    SameRegistration(Stored(InsertAll(services)), Registered(services), segs, |segs|);
    if MatchRoute(list, rest).None? {
      NoRouteIsNoneRegistered(list, services, handler, rest);
    } else {
      var (index, len) := MatchRoute(list, rest).value;
      MatchedDispatchRuns(list, rest);
      BestRouteIsLongest(list, services, handler, rest, index, len);
      var path := list.PrefixAt(index);
      assert segs[..|SegmentsOf(path)|] == SegmentsOf(path);
    }
  }

  function AsRouting<V>(found: Option<V>): Routing<V> {
    match found
    case None => NotFound
    case Some(v) => ListRouter.Routing.Service(v)
  }

  /** The trie finds the longest registered interface. */
  lemma TrieTakesLongest<V>(reg: Registry<V>, segs: Segments)
    ensures Best(InterfaceTrie(reg), segs) ==
      match Longest(Registered(reg), segs)
      case None => None
      case Some(d) => Some((InsertAll(Entry(reg, segs[..d]).value), d))
  {
    forall p: Segments
      ensures Stored(InterfaceTrie(reg))(p) == Registered(reg)(p)
    {
      TrieHolds(reg, p);
    }
    SameRegistration(Stored(InterfaceTrie(reg)), Registered(reg), segs, |segs|);
    var depth := Longest(Registered(reg), segs);
    if depth.Some? {
      TrieHolds(reg, segs[..depth.value]);
    }
  }

  /** The list router takes the same interface and goes on with the rest of the location. */
  lemma ListTakesLongest<V>(reg: Registry<V>, location: string) returns (rest: string)
    requires WellFormed(reg) && Normal(Trim(location))
    ensures Normal(Trim(rest))
    ensures match Longest(Registered(reg), SegmentsOf(location))
      case None => Route(InterfaceList(reg), location) == NotFound
      case Some(d) =>
        var services := Entry(reg, SegmentsOf(location)[..d]).value;
        && WellFormedServices(services) && SegmentsOf(rest) == SegmentsOf(location)[d..]
        && Route(InterfaceList(reg), location) == RouteInside(ServiceList(services), rest)
  {
    var list, segs := InterfaceList(reg), SegmentsOf(location);
    var handler := (entry: (string, Services<V>)) => AsInterface(entry);
    InterfacesListed(reg);
    if MatchRoute(list, location).None? {
      NoRouteIsNoneRegistered(list, reg, handler, location);
      rest := "";
      OneSegment("");
      assert Trim("") == "";
    } else {
      var (index, len) := MatchRoute(list, location).value;
      MatchedDispatchRuns(list, location);
      BestRouteIsLongest(list, reg, handler, location, index, len);
      var path := list.PrefixAt(index);
      assert segs[..|SegmentsOf(path)|] == SegmentsOf(path);
      EntryIsWellFormed(reg, SegmentsOf(path));
      StripLeavesRest(path, location);
      rest := StripInterfacePrefix(path, location).value;
    }
  }

  /** On every normalised location both routers answer alike, whatever was registered. */
  lemma RoutersAgree<V>(reg: Registry<V>, location: string)
    requires WellFormed(reg) && Normal(Trim(location))
    ensures Route(InterfaceList(reg), location) == AsRouting(Resolution(InterfaceTrie(reg), location))
  {
    TrieTakesLongest(reg, SegmentsOf(location));
    var rest := ListTakesLongest(reg, location);
    var depth := Longest(Registered(reg), SegmentsOf(location));
    if depth.Some? {
      ServicesAgree(Entry(reg, SegmentsOf(location)[..depth.value]).value, rest);
    }
  }

  lemma {:induction false} EntryIsWellFormed<V>(reg: Registry<V>, segs: Segments)
    requires WellFormed(reg) && Entry(reg, segs).Some?
    ensures WellFormedServices(Entry(reg, segs).value)
  {
    var n := |reg| - 1;
    if SegmentsOf(reg[n].0) != segs {
      assert forall i :: 0 <= i < n ==> reg[..n][i] == reg[i];
      EntryIsWellFormed(reg[..n], segs);
    }
  }

  lemma {:induction false} OnlySlashes(s: string)
    requires SegmentsOf(s) == []
    ensures TrimStart(s) == ""
  {
    if s != "" {
      var i := FirstSlash(s);
      assert SplitSlash(s)[0] == s[..i];
      assert |DropEmpty(SplitSlash(s))| == 0;
      assert SplitSlash(s)[0] == "";
      assert SplitSlash(s) == [""] + SplitSlash(s[1..]);
      OnlySlashes(s[1..]);
    }
  }

  lemma {:induction false} LastIsSlash(s: string)
    requires TrimStart(s) == "" && s != ""
    ensures s[|s| - 1] == '/'
  {
    if |s| > 1 {
      LastIsSlash(s[1..]);
    }
  }

  lemma NoSegmentsIsEmpty(s: string)
    requires SegmentsOf(s) == [] && (s != "" ==> s[|s| - 1] != '/')
    ensures s == ""
  {
    OnlySlashes(s);
    if s != "" {
      LastIsSlash(s);
    }
  }

  /** A path that covers a trimmed location with the same segments is that location. */
  lemma CoverWithSameSegments(path: string, loc: string)
    requires Covers(path, loc) && Trimmed(loc) && SegmentsOf(path) == SegmentsOf(loc)
    ensures path == loc
  {
    if |path| < |loc| {
      var rest := loc[|path| + 1..];
      assert loc == path + "/" + rest;
      SegmentsAppend(path, rest);
      assert rest != "" ==> rest[|rest| - 1] == loc[|loc| - 1];
      NoSegmentsIsEmpty(rest);
    } else {
      assert path == loc;
    }
  }

  /** The normalised form of a location with a doubled slash inside does not reach the location. */
  lemma NormalFormMisses(location: string)
    requires !Normal(Trim(location))
    ensures PathPrefixLen(Join(SegmentsOf(location)), location).None?
  {
    var loc, path := Trim(location), Join(SegmentsOf(location));
    TrimSegments(location);
    TrimIsTrimmed(location);
    SegmentsAreSegments(location);
    JoinSegments(SegmentsOf(location));
    NormalIsTrimmed(path);
    if path == "" {
      OneSegment("");
      NoSegmentsIsEmpty(loc);
    } else if Covers(path, loc) {
      CoverWithSameSegments(path, loc);
    }
  }

  /** A location with a doubled slash inside is answered differently by some registration. */
  lemma RoutersDiffer<V>(location: string, value: V) returns (reg: Registry<V>)
    requires !Normal(Trim(location))
    ensures WellFormed(reg)
    ensures Route(InterfaceList(reg), location) == NotFound
    ensures Resolution(InterfaceTrie(reg), location) == Some(value)
  {
    var segs := SegmentsOf(location);
    var path, services := Join(segs), [("", value)];
    reg := [(path, services)];
    SegmentsAreSegments(location);
    JoinSegments(segs);
    OneSegment("");
    NormalFormMisses(location);
    NormalIsTrimmed(path);
    assert reg[..0] == [];
    assert InterfaceList(reg) == Register(InterfaceList(reg[..0]), path, AsInterface(reg[0]));
    assert MatchRoute(InterfaceList(reg), location).None?;

    SingleEntryResolves(location, value);
  }

  /** A lone interface at the whole location, holding a service at the empty path, answers it in the trie. */
  lemma SingleEntryResolves<V>(location: string, value: V)
    ensures Resolution(InterfaceTrie([(Join(SegmentsOf(location)), [("", value)])]), location) == Some(value)
  {
    var segs, services := SegmentsOf(location), [("", value)];
    var reg := [(Join(segs), services)];
    SegmentsAreSegments(location);
    JoinSegments(segs);
    OneSegment("");
    assert services[..0] == [];
    TrieTakesLongest(reg, segs);
    assert segs[..|segs|] == segs && segs[|segs|..] == [];
    LongestIs(Registered(reg), segs, |segs|);
    InsertsRepresentMap(services, []);
    LongestIs(Stored(InsertAll(services)), [], 0);
  }

  /**
   * The two routers answer a location alike for every registration exactly when the location has
   * no doubled slash inside.
   */
  lemma AgreementIsNormality<V>(location: string, value: V)
    ensures Normal(Trim(location)) <==>
      forall reg: Registry<V> :: WellFormed(reg) ==>
        Route(InterfaceList(reg), location) == AsRouting(Resolution(InterfaceTrie(reg), location))
  {
    if Normal(Trim(location)) {
      forall reg: Registry<V> | WellFormed(reg) {
        RoutersAgree(reg, location);
      }
    } else {
      var reg := RoutersDiffer(location, value);
    }
  }
}
