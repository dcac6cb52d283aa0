/** Length demands and the segments granted for them. */
module Demands {
  import opened Wrappers
  import opened Octets

  /** An interval of acceptable lengths; `most` is `None` when there is no upper end. */
  datatype Demand = Demand(least: nat, most: Option<nat>) {
    predicate Allows(n: nat) {
      least <= n && (most.Some? ==> n <= most.value)
    }

    /** The least length above zero that could do. */
    function Need(): nat {
      if least == 0 then 1 else least
    }

    /** Some length above zero will do. */
    predicate Wants()
      ensures Wants() <==> exists n: nat :: n > 0 && Allows(n)
    {
      Allows(Need())
    }
  }

  function Exactly(n: nat): Demand { Demand(n, Some(n)) }

  function NoMoreThan(n: nat): Demand { Demand(0, Some(n)) }

  function AtLeast(n: nat): Demand { Demand(n, None) }

  /** Narrow a demand to a quota; `None` when the quota is used up or leaves no length. */
  function Narrow(demand: Demand, quota: nat): (r: Option<Demand>)
    ensures r.Some? <==> quota > 0 && exists n: nat :: n <= quota && demand.Allows(n)
    ensures r.Some? ==> forall n: nat :: r.value.Allows(n) <==> n <= quota && demand.Allows(n)
    ensures r.Some? ==> r.value.least == demand.least
  {
    var most := if demand.most.Some? && demand.most.value <= quota then demand.most.value else quota;
    assert demand.least <= most ==> demand.Allows(demand.least);
    if quota == 0 || most < demand.least then None else Some(Demand(demand.least, Some(most)))
  }

  /** A borrowed stretch of a buffer: one slice, or several where a ring wraps around. */
  datatype Segment = Segment(slices: seq<seq<Byte>>) {
    function Bytes(): seq<Byte> {
      Concat(slices)
    }
  }

  /** The length of a segment, summed slice by slice. */
  function TotalOf(slices: seq<seq<Byte>>): (n: nat)
    ensures n == |Concat(slices)|
  {
    if slices == [] then 0 else |slices[0]| + TotalOf(slices[1..])
  }

  /** What a segment still holds after `k` bytes were moved out of its front. */
  function MoveOut(slices: seq<seq<Byte>>, k: nat): (rest: seq<seq<Byte>>)
    requires k <= TotalOf(slices)
    ensures Concat(rest) == Concat(slices)[k..]
  {
    if slices == [] then []
    else if k >= |slices[0]| then
      assert Concat(slices)[k..] == Concat(slices[1..])[k - |slices[0]|..];
      MoveOut(slices[1..], k - |slices[0]|)
    else
      assert Concat(slices)[k..] == slices[0][k..] + Concat(slices[1..]);
      [slices[0][k..]] + slices[1..]
  }

  datatype ErrTag = Closing | Cancelled | Unsatisfied | Drained | Unknown

  /** The answer to a read borrow. */
  datatype Lending = Lent(segm: Segment) | Refused(tag: ErrTag)

  /** The answer to a write borrow: how much room was granted. */
  datatype Room = Granted(room: nat) | NoRoom(tag: ErrTag)

  function SatSub(a: nat, b: nat): nat {
    if a < b then 0 else a - b
  }
}
