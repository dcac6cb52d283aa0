/** The run-time path trie: values stored by segment sequence, matched by longest prefix. */
module PathTrie {
  import opened Wrappers
  import opened Paths
  import opened LongestMatch

  datatype TrieNode<T> = TrieNode(children: map<string, TrieNode<T>>, value: Option<T>)

  function Empty<T>(): TrieNode<T> {
    TrieNode(map[], None)
  }

  /** The value stored exactly at `segs`. */
  function At<T>(node: TrieNode<T>, segs: Segments): Option<T>
    decreases |segs|
  {
    if segs == [] then node.value
    else if segs[0] in node.children then At(node.children[segs[0]], segs[1..])
    else None
  }

  /** The tree with `value` stored at `segs`, missing nodes made on the way. */
  function InsertAt<T>(node: TrieNode<T>, segs: Segments, value: T): TrieNode<T>
    decreases |segs|
  {
    if segs == [] then node.(value := Some(value))
    else
      var child := if segs[0] in node.children then node.children[segs[0]] else Empty();
      node.(children := node.children[segs[0] := InsertAt(child, segs[1..], value)])
  }

  /** An insert changes what is stored at its own path and at no other. */
  lemma {:induction false} InsertAtLaw<T>(node: TrieNode<T>, p: Segments, value: T, q: Segments)
    ensures At(InsertAt(node, p, value), q) == if p == q then Some(value) else At(node, q)
    decreases |p|
  {
    if p != [] {
      if q != [] && q[0] == p[0] {
        var child := if p[0] in node.children then node.children[p[0]] else Empty();
        InsertAtLaw(child, p[1..], value, q[1..]);
        assert p == q <==> p[1..] == q[1..] by {
          assert p == [p[0]] + p[1..] && q == [q[0]] + q[1..];
        }
      }
    }
  }

  lemma AtAppend<T>(node: TrieNode<T>, p: Segments, s: string, q: Segments)
    ensures At(node, p + [s] + q) == At(node, p + ([s] + q))
  {
    assert p + [s] + q == p + ([s] + q);
  }

  function InsertAll<T>(inserts: seq<(string, T)>): TrieNode<T> {
    if inserts == [] then Empty()
    else
      var last := inserts[|inserts| - 1];
      InsertAt(InsertAll(inserts[..|inserts| - 1]), SegmentsOf(last.0), last.1)
  }

  /** The last value inserted under a path with these segments. */
  function LastInserted<T>(inserts: seq<(string, T)>, segs: Segments): Option<T> {
    if inserts == [] then None
    else
      var last := inserts[|inserts| - 1];
      if SegmentsOf(last.0) == segs then Some(last.1) else LastInserted(inserts[..|inserts| - 1], segs)
  }

  /** After any sequence of inserts the tree maps each segment sequence to its last value. */
  lemma {:induction false} InsertsRepresentMap<T>(inserts: seq<(string, T)>, segs: Segments)
    ensures At(InsertAll(inserts), segs) == LastInserted(inserts, segs)
  {
    if inserts != [] {
      var n := |inserts| - 1;
      InsertsRepresentMap(inserts[..n], segs);
      InsertAtLaw(InsertAll(inserts[..n]), SegmentsOf(inserts[n].0), inserts[n].1, segs);
    } else {
      assert At(Empty<T>(), segs) == None;
    }
  }

  ghost function Stored<T>(root: TrieNode<T>): Segments -> bool {
    p => At(root, p).Some?
  }

  /** `node` is where the path `walked` leads from `root`; `None` when it leads nowhere. */
  ghost predicate Reached<T>(root: TrieNode<T>, walked: Segments, node: TrieNode<T>) {
    forall q :: At(root, walked + q) == At(node, q)
  }

  lemma StartReached<T>(root: TrieNode<T>)
    ensures Reached(root, [], root)
  {
    forall q: Segments
      ensures At(root, [] + q) == At(root, q)
    {
      assert [] + q == q;
    }
  }

  /** Following one more segment goes to that child. */
  lemma Descend<T>(root: TrieNode<T>, walked: Segments, node: TrieNode<T>, segment: string)
    requires Reached(root, walked, node) && segment in node.children
    ensures Reached(root, walked + [segment], node.children[segment])
  {
    forall q: Segments
      ensures At(root, walked + [segment] + q) == At(node.children[segment], q)
    {
      AtAppend(root, walked, segment, q);
      assert ([segment] + q)[1..] == q;
      assert At(root, walked + ([segment] + q)) == At(node, [segment] + q);
    }
  }

  /** Where there is no child, nothing is stored any deeper. */
  lemma DeadEnd<T>(root: TrieNode<T>, walked: Segments, node: TrieNode<T>, segment: string,
                   q: Segments)
    requires Reached(root, walked, node) && segment !in node.children
    ensures At(root, walked + [segment] + q) == None
  {
    AtAppend(root, walked, segment, q);
    assert At(root, walked + ([segment] + q)) == At(node, [segment] + q);
  }

  lemma DeadEndFor<T>(root: TrieNode<T>, segs: Segments, i: nat, node: TrieNode<T>, k: nat)
    requires i < k <= |segs| && Reached(root, segs[..i], node) && segs[i] !in node.children
    ensures At(root, segs[..k]) == None
  {
    assert segs[..k] == segs[..i] + [segs[i]] + segs[i + 1..k];
    DeadEnd(root, segs[..i], node, segs[i], segs[i + 1..k]);
  }

  /** The value and depth of the longest stored front of `segments`, looking at most `n` deep. */
  ghost function BestUpTo<T>(root: TrieNode<T>, segments: Segments, n: nat): Option<(T, nat)>
    requires n <= |segments|
  {
    var depth := LongestIn(Stored(root), segments, n);
    if depth.None? then None else Some((At(root, segments[..depth.value]).value, depth.value))
  }

  ghost function Best<T>(root: TrieNode<T>, segments: Segments): Option<(T, nat)> {
    BestUpTo(root, segments, |segments|)
  }

  lemma ReachedValue<T>(root: TrieNode<T>, walked: Segments, node: TrieNode<T>)
    requires Reached(root, walked, node)
    ensures At(root, walked) == node.value
  {
    assert walked + [] == walked && At(root, walked + []) == At(node, []);
  }

  /** One step of the descent: the next child, and the best match so far. */
  lemma WalkOn<T>(root: TrieNode<T>, segments: Segments, i: nat, node: TrieNode<T>)
    requires i < |segments| && Reached(root, segments[..i], node) && segments[i] in node.children
    ensures var child := node.children[segments[i]];
      && Reached(root, segments[..i + 1], child)
      && BestUpTo(root, segments, i + 1) ==
         if child.value.Some? then Some((child.value.value, i + 1)) else BestUpTo(root, segments, i)
  {
    Descend(root, segments[..i], node, segments[i]);
    assert segments[..i + 1] == segments[..i] + [segments[i]];
    ReachedValue(root, segments[..i + 1], node.children[segments[i]]);
  }

  /** Where the descent stops, nothing deeper can match. */
  lemma WalkEnds<T>(root: TrieNode<T>, segments: Segments, i: nat, node: TrieNode<T>)
    requires i <= |segments| && Reached(root, segments[..i], node)
    requires i < |segments| ==> segments[i] !in node.children
    ensures Best(root, segments) == BestUpTo(root, segments, i)
  {
    forall k | i < k <= |segments|
      ensures !Stored(root)(segments[..k])
    {
      DeadEndFor(root, segments, i, node, k);
    }
    NothingLonger(Stored(root), segments, i, |segments|);
  }

  method MatchLongest<T>(root: TrieNode<T>, segments: Segments) returns (best: Option<(T, nat)>)
    ensures best == Best(root, segments)
  {
    var node := root;
    best := if node.value.Some? then Some((node.value.value, 0)) else None;
    StartReached(root);
    ReachedValue(root, [], root);
    assert segments[..0] == [];
    var i := 0;
    while i < |segments| && segments[i] in node.children
      invariant i <= |segments| && Reached(root, segments[..i], node)
      invariant best == BestUpTo(root, segments, i)
    {
      WalkOn(root, segments, i, node);
      node := node.children[segments[i]];
      i := i + 1;
      if node.value.Some? {
        best := Some((node.value.value, i));
      }
    }
    WalkEnds(root, segments, i, node);
  }

  method Holds<T>(root: TrieNode<T>, segments: Segments) returns (found: bool)
    ensures found <==> At(root, segments).Some?
  {
    var node := root;
    StartReached(root);
    var i := 0;
    assert segments[..0] == [];
    while i < |segments| && segments[i] in node.children
      invariant i <= |segments| && Reached(root, segments[..i], node)
    {
      WalkOn(root, segments, i, node);
      node := node.children[segments[i]];
      i := i + 1;
    }
    HoldsEnds(root, segments, i, node);
    found := i == |segments| && node.value.Some?;
  }

  lemma HoldsEnds<T>(root: TrieNode<T>, segments: Segments, i: nat, node: TrieNode<T>)
    requires i <= |segments| && Reached(root, segments[..i], node)
    requires i < |segments| ==> segments[i] !in node.children
    ensures At(root, segments) == if i == |segments| then node.value else None
  {
    assert segments[..|segments|] == segments;
    if i < |segments| {
      DeadEndFor(root, segments, i, node, |segments|);
    } else {
      ReachedValue(root, segments, node);
    }
  }

  /** A trie whose paths are strings, cut into segments on the way in. */
  class PathTrie<T> {
    var root: TrieNode<T>

    constructor ()
      ensures root == Empty()
    {
      root := Empty();
    }

    /** Store a value; the value it replaced, if any, is handed back. */
    method Insert(path: string, value: T) returns (replaced: Option<T>)
      modifies this
      ensures root == InsertAt(old(root), SegmentsOf(path), value)
      ensures replaced == At(old(root), SegmentsOf(path))
      ensures forall q :: At(root, q) == if q == SegmentsOf(path) then Some(value) else At(old(root), q)
    {
      replaced := At(root, SegmentsOf(path));
      forall q: Segments {
        InsertAtLaw(root, SegmentsOf(path), value, q);
      }
      root := InsertAt(root, SegmentsOf(path), value);
    }

    method Contains(path: string) returns (found: bool)
      ensures found <==> At(root, SegmentsOf(path)).Some?
    {
      found := Holds(root, SegmentsOf(path));
    }
  }
}
