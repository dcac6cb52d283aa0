/** The demo's prefix router: a map of keys and a cursor that walks back over the slashes. */
module DemoRouter {
  import opened Wrappers
  import opened Paths

  /** A key answers a location it equals, or ends in front of one of its slashes; the empty key answers all. */
  predicate Answers(key: string, location: string) {
    key == "" || Covers(key, location)
  }

  /** The index of the last slash, or 0 when there is none. */
  function LastSlash(s: string): (i: nat)
    ensures i == 0 || (i < |s| && s[i] == '/')
    ensures forall k :: i < k < |s| ==> s[k] != '/'
    ensures |s| > 0 ==> i < |s|
  {
    if s == "" then 0
    else if s[|s| - 1] == '/' then |s| - 1
    else
      var i := LastSlash(s[..|s| - 1]);
      assert forall k :: i < k < |s| - 1 ==> s[k] == s[..|s| - 1][k];
      i
  }

  /** An answering key shorter than the candidate ends at or before the candidate's last slash. */
  lemma AnswersBeforeSlash(key: string, location: string, cursor: nat)
    requires 0 < cursor <= |location| && Answers(key, location)
    requires |key| <= cursor && key != location[..cursor]
    ensures |key| <= LastSlash(location[..cursor])
  {
    if key != "" {
      assert key == location[..|key|];
      assert location[..cursor][|key|] == '/';
    }
  }

  class Router<T> {
    var prefixMap: map<string, T>

    constructor ()
      ensures prefixMap == map[]
    {
      prefixMap := map[];
    }

    method AddTarget(prefix: string, target: T) returns (replaced: Option<T>)
      modifies this
      ensures prefixMap == old(prefixMap)[prefix := target]
      ensures replaced == if prefix in old(prefixMap) then Some(old(prefixMap)[prefix]) else None
    {
      replaced := if prefix in prefixMap then Some(prefixMap[prefix]) else None;
      prefixMap := prefixMap[prefix := target];
    }

    /** The target of the longest key that answers the location; none exactly when no key does. */
    method TryMatch(location: string) returns (target: Option<T>, ghost found: string)
      ensures target.None? <==> forall key :: key in prefixMap ==> !Answers(key, location)
      ensures target.Some? ==>
        && found in prefixMap && Answers(found, location) && target.value == prefixMap[found]
        && forall key :: key in prefixMap && Answers(key, location) ==> |key| <= |found|
    {
      found := "";
      var cursor: nat := |location|;
      assert location[..cursor] == location;
      while true
        invariant cursor <= |location| && Answers(location[..cursor], location)
        invariant forall key :: key in prefixMap && Answers(key, location) ==> |key| <= cursor
        decreases cursor
      {
        var candidate := location[..cursor];
        if candidate in prefixMap {
          return Some(prefixMap[candidate]), candidate;
        }
        if cursor == 0 {
          return None, "";
        }
        var back := LastSlash(location[..cursor]);
        forall key | key in prefixMap && Answers(key, location)
          ensures |key| <= back
        {
          AnswersBeforeSlash(key, location, cursor);
        }
        cursor := back;
      }
    }
  }
}
