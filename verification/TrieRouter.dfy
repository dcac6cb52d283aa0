/** The two-level trie router: interface prefix first, service prefix inside it. */
module TrieRouter {
  import opened Wrappers
  import opened Paths
  import opened PathTrie

  datatype RegisterError =
    | DuplicateInterface(path: string)
    | DuplicateService(interface: string, service: string)

  /** No two entries have the same segments. */
  predicate Distinct<T>(routes: seq<(string, T)>) {
    forall i, j :: 0 <= i < j < |routes| ==> SegmentsOf(routes[i].0) != SegmentsOf(routes[j].0)
  }

  /** `LastInserted` finds something exactly when some entry has these segments. */
  lemma {:induction false} LastInsertedFinds<T>(inserts: seq<(string, T)>, segs: Segments)
    ensures LastInserted(inserts, segs).Some? <==> exists i :: 0 <= i < |inserts| && SegmentsOf(inserts[i].0) == segs
  {
    if inserts != [] {
      var n := |inserts| - 1;
      LastInsertedFinds(inserts[..n], segs);
      if SegmentsOf(inserts[n].0) != segs {
        forall i | 0 <= i < n
          ensures inserts[..n][i] == inserts[i]
        {
        }
      }
    }
  }

  /** The entry at `i` repeats an earlier one, and none before it does. */
  predicate FirstRepeat<T>(routes: seq<(string, T)>, i: nat)
    requires i < |routes|
  {
    Distinct(routes[..i]) && !Distinct(routes[..i + 1])
  }

  /** The path is that of the first entry that repeats an earlier one. */
  predicate IsFirstRepeat<T>(routes: seq<(string, T)>, path: string) {
    exists i :: 0 <= i < |routes| && FirstRepeat(routes, i) && routes[i].0 == path
  }

  lemma RepeatStays<T>(routes: seq<(string, T)>, i: nat)
    requires i < |routes| && FirstRepeat(routes, i)
    ensures !Distinct(routes)
  {
    var a, b :| 0 <= a < b < i + 1 && SegmentsOf(routes[..i + 1][a].0) == SegmentsOf(routes[..i + 1][b].0);
    assert SegmentsOf(routes[a].0) == SegmentsOf(routes[b].0);
  }

  /** One more entry repeats an earlier one when its segments are among those inserted before. */
  lemma RepeatsIfInserted<T>(routes: seq<(string, T)>, i: nat)
    requires i < |routes| && Distinct(routes[..i])
    ensures LastInserted(routes[..i], SegmentsOf(routes[i].0)).Some? <==> FirstRepeat(routes, i)
  {
    var segs := SegmentsOf(routes[i].0);
    LastInsertedFinds(routes[..i], segs);
    if LastInserted(routes[..i], segs).Some? {
      var k :| 0 <= k < i && SegmentsOf(routes[..i][k].0) == segs;
      assert SegmentsOf(routes[..i + 1][k].0) == SegmentsOf(routes[..i + 1][i].0);
    }
  }

  /** An insert replaces something exactly when its path repeats an earlier one. */
  lemma ReplacesIfRepeats<T>(routes: seq<(string, T)>, i: nat)
    requires i < |routes| && Distinct(routes[..i])
    ensures At(InsertAll(routes[..i]), SegmentsOf(routes[i].0)).Some? <==> FirstRepeat(routes, i)
    ensures InsertAll(routes[..i + 1]) == InsertAt(InsertAll(routes[..i]), SegmentsOf(routes[i].0), routes[i].1)
  {
    RepeatsIfInserted(routes, i);
    InsertsRepresentMap(routes[..i], SegmentsOf(routes[i].0));
    assert routes[..i + 1][..i] == routes[..i];
  }

  /** Build one interface's service trie; a repeated path stops it and is reported. */
  method BuildServiceTrie<T>(routes: seq<(string, T)>) returns (built: Result<TrieNode<T>, string>)
    ensures built.Ok? <==> Distinct(routes)
    ensures built.Ok? ==> built.value == InsertAll(routes)
    ensures built.Err? ==> IsFirstRepeat(routes, built.error)
  {
    var services := new PathTrie<T>();
    var i := 0;
    while i < |routes|
      invariant i <= |routes| && fresh(services)
      invariant services.root == InsertAll(routes[..i]) && Distinct(routes[..i])
    {
      var (path, value) := routes[i];
      ReplacesIfRepeats(routes, i);
      var replaced := services.Insert(path, value);
      if replaced.Some? {
        RepeatStays(routes, i);
        return Err(path);
      }
      i := i + 1;
    }
    assert routes[..i] == routes;
    return Ok(services.root);
  }

  /** What a location resolves to in a two-level table. */
  ghost function Resolution<V>(interfaces: TrieNode<TrieNode<V>>, location: string): Option<V> {
    var segments := SegmentsOf(location);
    match Best(interfaces, segments)
    case None => None
    case Some((services, depth)) =>
      match Best(services, segments[depth..])
      case None => None
      case Some((route, _)) => Some(route)
  }

  class RpcRouter<V> {
    const interfaces: PathTrie<TrieNode<V>>

    constructor ()
      ensures interfaces.root == Empty() && fresh(interfaces)
    {
      interfaces := new PathTrie<TrieNode<V>>();
    }

    /**
     * Register an interface with all its services. A rejected call leaves the table, and so
     * every resolution, as it was.
     */
    method AddInterface(interface: string, routes: seq<(string, V)>) returns (res: Result<(), RegisterError>)
      modifies interfaces
      ensures res.Ok? <==> At(old(interfaces.root), SegmentsOf(interface)).None? && Distinct(routes)
      ensures res.Ok? ==>
        interfaces.root == InsertAt(old(interfaces.root), SegmentsOf(interface), InsertAll(routes))
      ensures res.Err? ==> forall location ::
        Resolution(interfaces.root, location) == Resolution(old(interfaces.root), location)
      ensures res.Err? && At(old(interfaces.root), SegmentsOf(interface)).Some? ==>
        res.error == DuplicateInterface(interface)
      ensures res.Err? && At(old(interfaces.root), SegmentsOf(interface)).None? ==>
        res.error.DuplicateService? && res.error.interface == interface && IsFirstRepeat(routes, res.error.service)
    {
      var taken := interfaces.Contains(interface);
      if taken {
        return Err(DuplicateInterface(interface));
      }
      var services := BuildServiceTrie(routes);
      if services.Err? {
        return Err(DuplicateService(interface, services.error));
      }
      var _ := interfaces.Insert(interface, services.value);
      return Ok(());
    }

    method Resolve(location: string) returns (route: Option<V>)
      ensures route == Resolution(interfaces.root, location)
    {
      var segments := SegmentsOf(location);
      var interface := MatchLongest(interfaces.root, segments);
      if interface.None? {
        return None;
      }
      var (services, depth) := interface.value;
      var service := MatchLongest(services, segments[depth..]);
      if service.None? {
        return None;
      }
      return Some(service.value.0);
    }
  }
}
