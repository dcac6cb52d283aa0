/**
 * Slash-separated paths: cutting into segments, trimming, and matching on whole segments.
 * A string is its sequence of UTF-8 code units, so lengths are the source's byte lengths.
 */
module Paths {
  import opened Wrappers
  import opened Octets

  type Segments = seq<string>

  /** The index of the first slash, or the length when there is none. */
  function FirstSlash(s: string): (i: nat)
    ensures i <= |s| && (i < |s| ==> s[i] == '/') && '/' !in s[..i]
  {
    if s == "" || s[0] == '/' then 0 else
      var i := FirstSlash(s[1..]) + 1;
      assert s[..i] == [s[0]] + s[1..][..i - 1];
      i
  }

  /** The pieces between slashes, the empty ones included. */
  function SplitSlash(s: string): Segments
    decreases |s|
  {
    var i := FirstSlash(s);
    if i == |s| then [s] else [s[..i]] + SplitSlash(s[i + 1..])
  }

  function DropEmpty(parts: Segments): Segments {
    if parts == [] then [] else (if parts[0] == "" then [] else [parts[0]]) + DropEmpty(parts[1..])
  }

  /** The non-empty segments of a path, the form both registration and lookup of a trie use. */
  function SegmentsOf(path: string): Segments {
    DropEmpty(SplitSlash(path))
  }

  function TrimStart(s: string): string {
    if s != "" && s[0] == '/' then TrimStart(s[1..]) else s
  }

  function TrimEnd(s: string): string {
    if s != "" && s[|s| - 1] == '/' then TrimEnd(s[..|s| - 1]) else s
  }

  /** Strip every leading and trailing slash. */
  function Trim(s: string): string {
    TrimEnd(TrimStart(s))
  }

  function Join(segs: Segments): string {
    if segs == [] then ""
    else if |segs| == 1 then segs[0]
    else segs[0] + "/" + Join(segs[1..])
  }

  /** A path with no leading, trailing or doubled slash. */
  predicate Normal(path: string) {
    path == Join(SegmentsOf(path))
  }

  predicate IsSegment(s: string) {
    s != "" && '/' !in s
  }

  predicate AreSegments(segs: Segments) {
    forall i :: 0 <= i < |segs| ==> IsSegment(segs[i])
  }

  lemma {:induction false} DropEmptyAppend(a: Segments, b: Segments)
    ensures DropEmpty(a + b) == DropEmpty(a) + DropEmpty(b)
  {
    if a == [] {
      assert a + b == b;
    } else {
      DropEmptyAppend(a[1..], b);
      assert (a + b)[0] == a[0] && (a + b)[1..] == a[1..] + b;
      Associate(if a[0] == "" then [] else [a[0]], DropEmpty(a[1..]), DropEmpty(b));
    }
  }

  lemma FirstSlashIs(s: string, i: nat)
    requires i <= |s| && (i < |s| ==> s[i] == '/') && '/' !in s[..i]
    ensures FirstSlash(s) == i
  {
    var j := FirstSlash(s);
    forall k | 0 <= k < i
      ensures s[k] != '/'
    {
      assert s[..i][k] in s[..i];
    }
    forall k | 0 <= k < j
      ensures s[k] != '/'
    {
      assert s[..j][k] in s[..j];
    }
  }

  lemma {:induction false} SplitAppend(a: string, b: string)
    ensures SplitSlash(a + "/" + b) == SplitSlash(a) + SplitSlash(b)
    decreases |a|
  {
    var s, i := a + "/" + b, FirstSlash(a);
    assert s[..i] == a[..i];
    FirstSlashIs(s, i);
    if i == |a| {
      assert s[..i] == a && s[i + 1..] == b;
    } else {
      assert s[i + 1..] == a[i + 1..] + "/" + b;
      SplitAppend(a[i + 1..], b);
    }
  }

  /** Segments of a path made of two parts are those of the parts. */
  lemma SegmentsAppend(a: string, b: string)
    ensures SegmentsOf(a + "/" + b) == SegmentsOf(a) + SegmentsOf(b)
  {
    SplitAppend(a, b);
    DropEmptyAppend(SplitSlash(a), SplitSlash(b));
  }

  lemma OneSegment(s: string)
    requires '/' !in s
    ensures SegmentsOf(s) == if s == "" then [] else [s]
  {
    assert s[..|s|] == s;
    FirstSlashIs(s, |s|);
    assert DropEmpty([s][1..]) == [];
  }

  lemma {:induction false} SegmentsAreSegments(path: string)
    ensures AreSegments(SegmentsOf(path))
    decreases |path|
  {
    var i := FirstSlash(path);
    if i < |path| {
      SegmentsAreSegments(path[i + 1..]);
      assert path == path[..i] + "/" + path[i + 1..];
      SegmentsAppend(path[..i], path[i + 1..]);
      OneSegment(path[..i]);
    } else {
      assert path[..i] == path;
      OneSegment(path);
    }
  }

  lemma {:induction false} JoinSegments(segs: Segments)
    requires AreSegments(segs)
    ensures SegmentsOf(Join(segs)) == segs && Normal(Join(segs))
  {
    if segs == [] {
      OneSegment("");
    } else {
      OneSegment(segs[0]);
      if |segs| > 1 {
        JoinSegments(segs[1..]);
        SegmentsAppend(segs[0], Join(segs[1..]));
      }
    }
  }

  lemma {:induction false} JoinAppend(a: Segments, b: Segments)
    requires a != [] && b != []
    ensures Join(a + b) == Join(a) + "/" + Join(b)
  {
    assert (a + b)[0] == a[0] && (a + b)[1..] == a[1..] + b;
    if |a| == 1 {
      assert a[1..] + b == b;
    } else {
      JoinAppend(a[1..], b);
      Associate(a[0] + "/", Join(a[1..]) + "/", Join(b));
      Associate(a[0] + "/", Join(a[1..]), "/");
    }
  }

  lemma {:induction false} TrimStartSegments(s: string)
    ensures SegmentsOf(TrimStart(s)) == SegmentsOf(s)
  {
    if s != "" && s[0] == '/' {
      TrimStartSegments(s[1..]);
      assert s == "" + "/" + s[1..];
      SegmentsAppend("", s[1..]);
      OneSegment("");
    }
  }

  lemma {:induction false} TrimEndSegments(s: string)
    ensures SegmentsOf(TrimEnd(s)) == SegmentsOf(s)
  {
    if s != "" && s[|s| - 1] == '/' {
      TrimEndSegments(s[..|s| - 1]);
      assert s == s[..|s| - 1] + "/" + "";
      SegmentsAppend(s[..|s| - 1], "");
      OneSegment("");
    }
  }

  /** Trimming a path leaves its segments alone. */
  lemma TrimSegments(s: string)
    ensures SegmentsOf(Trim(s)) == SegmentsOf(s)
  {
    TrimStartSegments(s);
    TrimEndSegments(TrimStart(s));
  }

  predicate Trimmed(s: string) {
    s == "" || (s[0] != '/' && s[|s| - 1] != '/')
  }

  lemma {:induction false} TrimEndFront(s: string)
    requires s == "" || s[0] != '/'
    ensures Trimmed(TrimEnd(s)) && TrimEnd(s) <= s
  {
    if s != "" && s[|s| - 1] == '/' {
      TrimEndFront(s[..|s| - 1]);
    }
  }

  lemma {:induction false} TrimStartEnds(s: string)
    ensures TrimStart(s) == "" || TrimStart(s)[0] != '/'
  {
    if s != "" && s[0] == '/' {
      TrimStartEnds(s[1..]);
    }
  }

  lemma TrimIsTrimmed(s: string)
    ensures Trimmed(Trim(s)) && Trim(Trim(s)) == Trim(s)
  {
    TrimStartEnds(s);
    TrimEndFront(TrimStart(s));
  }

  lemma NormalIsTrimmed(path: string)
    requires Normal(path)
    ensures Trimmed(path) && Trim(path) == path
  {
    SegmentsAreSegments(path);
    JoinIsTrimmed(SegmentsOf(path));
  }

  lemma {:induction false} JoinIsTrimmed(segs: Segments)
    requires AreSegments(segs)
    ensures Trimmed(Join(segs)) && (segs != [] ==> Join(segs) != "")
  {
    if |segs| > 1 {
      JoinIsTrimmed(segs[1..]);
    }
  }

  /** Whether `prefix` covers whole segments of `path`, character by character. */
  predicate Covers(prefix: string, path: string) {
    prefix <= path && (|path| == |prefix| || path[|prefix|] == '/')
  }

  /**
   * How far `prefix` reaches into `path` when it covers whole segments: the routers'
   * comparison, done on trimmed strings.
   */
  function PathPrefixLen(prefix: string, path: string): Option<nat> {
    var prefix := Trim(prefix);
    var path := Trim(path);
    if prefix == "" then Some(0)
    else if Covers(prefix, path) then Some(|prefix|)
    else None
  }

  lemma CoversGivesSegments(prefix: string, path: string)
    requires Covers(prefix, path)
    ensures SegmentsOf(prefix) <= SegmentsOf(path)
  {
    if |path| > |prefix| {
      var rest := path[|prefix| + 1..];
      assert path == prefix + "/" + rest;
      SegmentsAppend(prefix, rest);
    } else {
      assert path == prefix;
    }
  }

  lemma SegmentsGiveCovers(prefix: string, path: string)
    requires Normal(prefix) && Normal(path) && prefix != ""
    requires SegmentsOf(prefix) <= SegmentsOf(path)
    ensures Covers(prefix, path)
  {
    var p, rest := SegmentsOf(prefix), SegmentsOf(path)[|SegmentsOf(prefix)|..];
    assert SegmentsOf(path) == p + rest;
    if rest == [] {
      assert p + rest == p;
    } else {
      JoinAppend(p, rest);
      assert path == prefix + ("/" + Join(rest)) by {
        Associate(prefix, "/", Join(rest));
      }
    }
  }

  /** On normal paths the string comparison matches exactly when the segments are a prefix. */
  lemma PrefixMatchesSegments(prefix: string, path: string)
    requires Normal(prefix) && Normal(path)
    ensures PathPrefixLen(prefix, path).Some? <==> SegmentsOf(prefix) <= SegmentsOf(path)
    ensures PathPrefixLen(prefix, path).Some? ==> PathPrefixLen(prefix, path).value == |prefix|
  {
    NormalIsTrimmed(prefix);
    NormalIsTrimmed(path);
    if prefix == "" {
      OneSegment("");
    } else if SegmentsOf(prefix) <= SegmentsOf(path) {
      SegmentsGiveCovers(prefix, path);
    } else if Covers(prefix, path) {
      CoversGivesSegments(prefix, path);
    }
  }

  /** Among normal prefixes of one path, more segments and more characters are the same thing. */
  lemma LongerBySegmentsIsLonger(p: string, q: string, segs: Segments)
    requires Normal(p) && Normal(q) && SegmentsOf(p) <= segs && SegmentsOf(q) <= segs
    ensures |SegmentsOf(p)| <= |SegmentsOf(q)| <==> |p| <= |q|
    ensures |p| == |q| ==> p == q
  {
    if |SegmentsOf(p)| <= |SegmentsOf(q)| {
      PrefixIsShorter(p, q, segs);
    } else {
      PrefixIsShorter(q, p, segs);
    }
  }

  lemma PrefixIsShorter(p: string, q: string, segs: Segments)
    requires Normal(p) && Normal(q) && SegmentsOf(p) <= segs && SegmentsOf(q) <= segs
    requires |SegmentsOf(p)| <= |SegmentsOf(q)|
    ensures |p| <= |q| && (|p| == |q| ==> p == q)
    ensures |SegmentsOf(p)| < |SegmentsOf(q)| ==> |p| < |q|
  {
    var a, b := SegmentsOf(p), SegmentsOf(q);
    assert a == segs[..|a|] && b == segs[..|b|];
    assert b == a + b[|a|..];
    if b[|a|..] == [] {
      assert a == b;
    } else if a == [] {
      SegmentsAreSegments(q);
      JoinIsTrimmed(b);
    } else {
      JoinAppend(a, b[|a|..]);
    }
  }
}
