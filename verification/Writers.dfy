/**
 * Write halves, bare or seen through quotas.
 *
 * `ByteSink` stands for the buffer library's write half, which may grant any room it likes;
 * `LimitedWriter` is the quota view, `OutPort` whatever a caller writes to.
 */
module Writers {
  import opened Wrappers
  import opened Octets
  import opened Demands
  import opened Channels

  /** A write half: everything ever written to it, until it is closed. */
  class ByteSink {
    var written: seq<Byte>
    var closed: bool
    var noted: Option<(nat, bool)>   // room it has now and whether the peer closed, if it knows
    const obeys: bool
    const steady: bool               // nothing fails on it, and no wait for it is cancelled
    const channel: Channel

    constructor On(channel: Channel, obeys: bool, steady: bool)
      ensures written == [] && !closed && this.obeys == obeys && this.steady == steady && this.channel == channel
    {
      written, closed, noted, this.obeys, this.steady, this.channel := [], false, *, obeys, steady, channel;
    }

    /** A hint to the caller, which may change whenever bytes are put. */
    method ProducerState() returns (state: Option<(nat, bool)>)
      ensures state == noted
    {
      state := noted;
    }

    /** A steady half makes room for anything in time. */
    method Lend(demand: Demand) returns (answer: Room)
      ensures obeys && answer.Granted? ==> demand.Allows(answer.room)
      ensures steady && obeys && demand.Wants() ==> answer.Granted? && answer.room > 0
    {
      var lends: bool, n: nat, tag: ErrTag := *, *, *;
      if steady && obeys && demand.Wants() {
        lends := true;
        n := if demand.Allows(n) && n > 0 then n else demand.Need();
      }
      answer := if lends && (obeys ==> demand.Allows(n)) then Granted(n) else NoRoom(tag);
    }

    method Put(bytes: seq<Byte>)
      requires !closed
      modifies this`written, this`noted, channel
      ensures written == old(written) + bytes
      ensures channel.trace == old(channel.trace) + Outs(bytes)
    {
      written, noted := written + bytes, *;
      channel.trace := channel.trace + Outs(bytes);
    }

    /** Dropping the write half closes it: nothing can be put any more. */
    method HalfClose()
      requires !closed
      modifies this`closed, channel
      ensures closed && channel.trace == old(channel.trace) + [HalfClosed]
    {
      closed := true;
      channel.trace := channel.trace + [HalfClosed];
    }
  }

  /** What the generic code writes to. */
  datatype OutPort = Into(sink: ByteSink) | Capped(limited: LimitedWriter) {

    ghost function Views(): set<LimitedWriter> {
      match this
      case Into(_) => {}
      case Capped(l) => l.views
    }

    ghost function Base(): ByteSink {
      match this
      case Into(s) => s
      case Capped(l) => l.base
    }

    ghost function Height(): nat {
      match this
      case Into(_) => 0
      case Capped(l) => l.height
    }

    ghost predicate Obeys() {
      match this
      case Into(s) => s.obeys
      case Capped(_) => true
    }

    /** Nothing fails on the way to the bare half, and no wait is cancelled. */
    predicate Steady() {
      match this
      case Into(s) => s.steady && s.obeys
      case Capped(l) => l.steady
    }

    /** The half is still open and every view on the way keeps its account. */
    ghost predicate Valid()
      reads Views(), Base()
      decreases Height(), 1
    {
      match this
      case Into(s) => !s.closed
      case Capped(l) => l.Valid()
    }

    ghost function Sent(): (sent: Delivery)
      requires Valid()
      reads Views(), Base()
      ensures sent.written == Base().written
      decreases Height(), 1
    {
      match this
      case Into(s) => Tally(s.written, [])
      case Capped(l) => l.Sent()
    }

    /** Whether every quota on the way still covers `n` more bytes. */
    ghost predicate Covers(n: nat)
      requires Valid()
      reads Views(), Base()
    {
      Cover(Sent().quotas, n) == n
    }

    ghost function Written(): seq<Byte>
      reads Base()
    {
      Base().written
    }

    ghost function Trace(): seq<Event>
      reads Base().channel
    {
      Base().channel.trace
    }

    ghost function Report(): Option<(nat, bool)>
      requires Valid()
      reads Views(), Base()
      decreases Height(), 1
    {
      match this
      case Into(s) => s.noted
      case Capped(l) => l.Report()
    }

    method ProducerState() returns (state: Option<(nat, bool)>)
      requires Valid()
      ensures state == Report()
      decreases Height(), 1
    {
      match this
      case Into(s) => state := s.ProducerState();
      case Capped(l) => state := l.ProducerState();
    }

    method Lend(demand: Demand) returns (answer: Room)
      requires Valid()
      ensures Obeys() && answer.Granted? ==> demand.Allows(answer.room)
      ensures answer.Granted? ==> Covers(answer.room)
      ensures Steady() && demand.Wants() && Covers(demand.Need()) ==> answer.Granted? && answer.room > 0
      decreases Height(), 1
    {
      match this
      case Into(s) => answer := s.Lend(demand);
      case Capped(l) => answer := l.Lend(demand);
    }

    /** What was written into granted room is charged to every quota on the way. */
    method Put(room: nat, bytes: seq<Byte>)
      requires Valid() && |bytes| <= room && Covers(room)
      modifies Views(), Base(), Base().channel
      ensures Valid() && Sent() == old(Sent()).Plus(bytes)
      ensures Trace() == old(Trace()) + Outs(bytes)
      ensures Capped? ==> limited.moved == old(limited.moved) + bytes
      decreases Height(), 1
    {
      match this
      case Into(s) =>
        s.Put(bytes);
        assert Charge([], |bytes|) == [];
      case Capped(l) => l.Put(room, bytes);
    }
  }

  /** A write view that stops after a preset number of bytes. */
  class LimitedWriter {
    const inner: OutPort
    const steady: bool
    var remaining: nat

    ghost const limit: nat
    ghost const base: ByteSink
    ghost const height: nat
    ghost const views: set<LimitedWriter>
    ghost var moved: seq<Byte>

    ghost predicate Valid()
      reads views, base
      decreases height, 0
    {
      && this in views && this !in inner.Views() && views == inner.Views() + {this}
      && inner.Height() < height && base == inner.Base()
      && inner.Obeys() && inner.Valid() && steady == inner.Steady()
      && limit == |moved| + remaining
    }

    constructor (inner: OutPort, limit: nat)
      requires inner.Valid() && inner.Obeys()
      ensures Valid() && fresh(this) && views == {this} + inner.Views() && base == inner.Base()
      ensures this.inner == inner && this.limit == limit && remaining == limit && moved == []
    {
      this.inner, this.limit, remaining, steady := inner, limit, limit, inner.Steady();
      base, height := inner.Base(), inner.Height() + 1;
      views := {this} + inner.Views();
      moved := [];
    }

    ghost function Sent(): (sent: Delivery)
      requires Valid()
      reads views, base
      ensures sent.written == base.written
      decreases height, 0
    {
      Tally(base.written, [remaining] + inner.Sent().quotas)
    }

    ghost function Report(): (state: Option<(nat, bool)>)
      requires Valid()
      reads views, base
      ensures state.Some? ==> state.value.0 <= remaining && (remaining == 0 ==> state.value.1)
      decreases height, 0
    {
      UnderQuota(inner.Report(), remaining)
    }

    method ProducerState() returns (state: Option<(nat, bool)>)
      requires Valid()
      ensures state == Report()
      decreases height, 0
    {
      state := inner.ProducerState();
      if state.Some? {
        var (free, closed) := state.value;
        state := Some((if free <= remaining then free else remaining, closed || remaining == 0));
      }
    }

    method Lend(demand: Demand) returns (answer: Room)
      requires Valid()
      ensures answer.Granted? ==> demand.Allows(answer.room) && answer.room <= remaining
      ensures answer.Granted? ==> Cover(Sent().quotas, answer.room) == answer.room
      ensures steady && demand.Wants() && Cover(Sent().quotas, demand.Need()) == demand.Need() ==>
        answer.Granted? && answer.room > 0
      decreases height, 0
    {
      CoverCons(remaining, inner.Sent().quotas, demand.Need());
      var narrowed := Narrow(demand, remaining);
      if narrowed.None? {
        assert demand.Wants() && demand.Need() <= remaining ==> demand.Allows(demand.Need());
        return NoRoom(Closing);
      }
      var cancelled: bool := *;
      if cancelled && !steady {
        return NoRoom(Cancelled);
      }
      answer := inner.Lend(narrowed.value);
      if answer.Granted? {
        CoverCons(remaining, inner.Sent().quotas, answer.room);
      }
    }

    /** Giving a segment back charges the quota with what was written into it. */
    method Put(room: nat, bytes: seq<Byte>)
      requires Valid() && |bytes| <= room && Cover(Sent().quotas, room) == room
      modifies views, base, base.channel
      ensures Valid() && Sent() == old(Sent()).Plus(bytes)
      ensures base.channel.trace == old(base.channel.trace) + Outs(bytes)
      ensures remaining == old(remaining) - |bytes| && moved == old(moved) + bytes
      decreases height, 0
    {
      CoverCons(remaining, inner.Sent().quotas, room);
      ChargeCons(remaining, inner.Sent().quotas, |bytes|);
      var used := SatSub(room, room - |bytes|);
      moved := moved + bytes;
      remaining := SatSub(remaining, used);
      inner.Put(room, bytes);
    }
  }

  /** Each of the offers is not empty and content with room for one byte. */
  predicate Willing(offers: seq<(Demand, seq<Byte>)>) {
    forall i :: 0 <= i < |offers| ==> offers[i].0.Allows(1) && offers[i].1 != []
  }

  /**
   * And any sequence of writes: every quota pays for exactly the bytes that reached the bare half.
   * Over a steady half they go on until some quota is used up.
   */
  method FillMany(dst: LimitedWriter, offers: seq<(Demand, seq<Byte>)>)
    returns (ghost moved: seq<Byte>, ghost parts: seq<seq<Byte>>)
    requires dst.Valid()
    modifies dst.views, dst.base, dst.base.channel
    ensures dst.Valid() && dst.Sent() == old(dst.Sent()).Plus(moved)
    ensures dst.moved == old(dst.moved) + moved && dst.remaining == old(dst.remaining) - |moved|
    ensures dst.base.written == old(dst.base.written) + moved
    ensures |moved| <= old(dst.remaining)
    ensures moved == Concat(parts) && |parts| == |offers| && forall i :: 0 <= i < |parts| ==> parts[i] <= offers[i].1
    ensures dst.steady && Willing(offers) ==> |moved| >= Cover(old(dst.Sent()).quotas, |offers|)
  {
    moved, parts := [], [];
    PlusNothing(dst.Sent());
    var i := 0;
    while i < |offers|
      invariant dst.Valid() && i <= |offers| && dst.Sent() == old(dst.Sent()).Plus(moved)
      invariant dst.moved == old(dst.moved) + moved && dst.remaining == old(dst.remaining) - |moved|
      invariant moved == Concat(parts) && |parts| == i && forall k :: 0 <= k < i ==> parts[k] <= offers[k].1
      invariant dst.steady && Willing(offers) ==> |moved| >= Cover(old(dst.Sent()).quotas, i)
    {
      CoverGrows(old(dst.Sent()).quotas, i, |moved|);
      var part := Fill(dst, offers[i].0, offers[i].1);
      PlusTwice(old(dst.Sent()), moved, part);
      Associate(old(dst.moved), moved, part);
      ConcatSnoc(parts, part);
      moved, parts := moved + part, parts + [part];
      i := i + 1;
    }
  }

  /** One write: as much of `bytes` as the room granted for the demand takes. */
  method Fill(dst: LimitedWriter, demand: Demand, bytes: seq<Byte>) returns (part: seq<Byte>)
    requires dst.Valid()
    modifies dst.views, dst.base, dst.base.channel
    ensures dst.Valid() && part <= bytes && dst.Sent() == old(dst.Sent()).Plus(part)
    ensures dst.moved == old(dst.moved) + part && dst.remaining == old(dst.remaining) - |part|
    ensures dst.steady && demand.Allows(1) && bytes != [] && Cover(old(dst.Sent()).quotas, 1) == 1 ==> part != []
  {
    var room := dst.Lend(demand);
    if room.NoRoom? {
      PlusNothing(dst.Sent());
      return [];
    }
    part := if room.room < |bytes| then bytes[..room.room] else bytes;
    dst.Put(room.room, part);
  }
}
