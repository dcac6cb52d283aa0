/** The reference definition of longest-prefix matching over whole segments. */
module LongestMatch {
  import opened Wrappers
  import opened Paths

  /** The length of the longest front of `segs`, up to `n` segments, that is registered. */
  ghost function LongestIn(has: Segments -> bool, segs: Segments, n: nat): (depth: Option<nat>)
    requires n <= |segs|
    ensures depth.None? <==> forall k :: 0 <= k <= n ==> !has(segs[..k])
    ensures depth.Some? ==> depth.value <= n && has(segs[..depth.value])
    ensures depth.Some? ==> forall k :: depth.value < k <= n ==> !has(segs[..k])
  {
    if has(segs[..n]) then Some(n) else if n == 0 then None else LongestIn(has, segs, n - 1)
  }

  ghost function Longest(has: Segments -> bool, segs: Segments): Option<nat> {
    LongestIn(has, segs, |segs|)
  }

  /** A depth that is registered and has nothing registered below it is the longest. */
  lemma LongestIs(has: Segments -> bool, segs: Segments, depth: nat)
    requires depth <= |segs| && has(segs[..depth])
    requires forall k :: depth < k <= |segs| ==> !has(segs[..k])
    ensures Longest(has, segs) == Some(depth)
  {
  }

  /** Nothing registered below `n` means looking no further than `n`. */
  lemma {:induction false} NothingLonger(has: Segments -> bool, segs: Segments, n: nat, m: nat)
    requires n <= m <= |segs| && forall k :: n < k <= m ==> !has(segs[..k])
    ensures LongestIn(has, segs, m) == LongestIn(has, segs, n)
  {
    if n < m {
      NothingLonger(has, segs, n, m - 1);
    }
  }

  lemma {:induction false} SameRegistration(f: Segments -> bool, g: Segments -> bool, segs: Segments, n: nat)
    requires n <= |segs| && forall p :: f(p) == g(p)
    ensures LongestIn(f, segs, n) == LongestIn(g, segs, n)
  {
    if n > 0 {
      SameRegistration(f, g, segs, n - 1);
    }
  }
}
