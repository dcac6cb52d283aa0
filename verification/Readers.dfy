/**
 * Read halves, bare or seen through quotas.
 *
 * `ByteSource` stands for the buffer library's read half and states only what a borrow may
 * answer; which answer comes is left open. `LimitedReader` is the quota view, `Port` whatever a
 * caller reads from.
 */
module Readers {
  import opened Wrappers
  import opened Octets
  import opened Demands
  import opened Channels

  /**
   * What a read borrow may answer over the bytes still to come. `obeys` says that the
   * buffer keeps to the demanded length; every buffer lends only bytes it has. `steady` says that
   * nothing fails on the half: it lends something whenever it can, and refuses only for its end.
   */
  ghost predicate MayLend(pending: seq<Byte>, obeys: bool, steady: bool, demand: Demand, answer: Lending) {
    match answer
    case Lent(segm) =>
      && segm.Bytes() <= pending && (obeys ==> demand.Allows(TotalOf(segm.slices)))
      && (steady && demand.Wants() ==> segm.Bytes() != [])
    case Refused(tag) =>
      && (tag == Closing ==> pending == [] || |pending| < demand.least || !demand.Allows(demand.least))
      && (steady ==> tag == Closing)
  }

  /** What a buffer may report: how much is readable now, and whether nothing more will come. */
  predicate MayReport(pending: seq<Byte>, state: Option<(nat, bool)>) {
    state.Some? ==> state.value.0 <= |pending| && (state.value.1 ==> state.value.0 == |pending|)
  }

  /** A read half: the bytes it will deliver from here on, whenever they arrive. */
  class ByteSource {
    var pending: seq<Byte>
    var noted: Option<(nat, bool)>   // what it knows of them now, if it knows anything
    const obeys: bool
    const steady: bool               // nothing fails on it, and no wait for it is cancelled
    const channel: Channel

    /** A half of its own, like a ring's. */
    constructor (bytes: seq<Byte>, obeys: bool, steady: bool)
      ensures pending == bytes && this.obeys == obeys && this.steady == steady && fresh(channel)
    {
      pending, noted, this.obeys, this.steady := bytes, *, obeys, steady;
      channel := new Channel();
    }

    constructor On(channel: Channel, bytes: seq<Byte>, obeys: bool, steady: bool)
      ensures pending == bytes && this.obeys == obeys && this.steady == steady && this.channel == channel
    {
      pending, noted, this.obeys, this.steady, this.channel := bytes, *, obeys, steady, channel;
    }

    /** Its report at this moment; it may change whenever bytes are taken. */
    function Report(): (state: Option<(nat, bool)>)
      reads this
      ensures MayReport(pending, state)
    {
      if noted.None? || noted.value.0 > |pending| then None
      else Some((noted.value.0, noted.value.1 && noted.value.0 == |pending|))
    }

    method ConsumerState() returns (state: Option<(nat, bool)>)
      ensures state == Report()
    {
      state := Report();
    }

    method Lend(demand: Demand) returns (answer: Lending)
      ensures MayLend(pending, obeys, steady && obeys, demand, answer)
    {
      var lends: bool, n: nat, cut: nat, tag: ErrTag := *, *, *, *;
      if steady && obeys {
        tag := Closing;
        lends := demand.Allows(demand.least) && demand.least <= |pending| && pending != [];
        if !demand.Allows(n) || n > |pending| || n == 0 {
          n := if demand.Wants() then demand.Need() else 0;
        }
        cut := if cut <= n then cut else n;
      }
      if lends && n <= |pending| && cut <= n && (obeys ==> demand.Allows(n)) {
        var slices := [pending[..cut], pending[cut..n]];
        assert Concat(slices[1..]) == pending[cut..n] + Concat(slices[1..][1..]);
        assert Concat(slices) == pending[..n];
        return Lent(Segment(slices));
      }
      return Refused(if pending == [] || (steady && obeys) then tag else if tag == Closing then Unknown else tag);
    }

    method Reclaim(lent: Segment, rest: Segment)
      requires lent.Bytes() <= pending
      requires TotalOf(rest.slices) <= TotalOf(lent.slices)
      modifies this, channel
      ensures var used := TotalOf(lent.slices) - TotalOf(rest.slices);
        && pending == old(pending)[used..]
        && channel.trace == old(channel.trace) + Ins(old(pending)[..used])
    {
      var used := TotalOf(lent.slices) - TotalOf(rest.slices);
      channel.trace := channel.trace + Ins(pending[..used]);
      pending, noted := pending[used..], *;
    }
  }

  /** What the generic code reads from. */
  datatype Port = Raw(source: ByteSource) | View(limited: LimitedReader) {

    ghost function Views(): set<LimitedReader> {
      match this
      case Raw(_) => {}
      case View(l) => l.views
    }

    /** The bare half at the bottom of the views. */
    ghost function Base(): ByteSource {
      match this
      case Raw(s) => s
      case View(l) => l.base
    }

    ghost function Height(): nat {
      match this
      case Raw(_) => 0
      case View(l) => l.height
    }

    ghost predicate Obeys() {
      match this
      case Raw(s) => s.obeys
      case View(l) => true
    }

    /** Nothing fails on the way to the bare half, and no wait is cancelled. */
    predicate Steady() {
      match this
      case Raw(s) => s.steady && s.obeys
      case View(l) => l.steady
    }

    ghost predicate Valid()
      reads Views(), Base()
      decreases Height(), 1
    {
      match this
      case Raw(_) => true
      case View(l) => l.Valid()
    }

    ghost function Held(): (held: Supply)
      requires Valid()
      reads Views(), Base()
      ensures held.bytes == Base().pending
      decreases Height(), 1
    {
      match this
      case Raw(s) => Stock(s.pending, [])
      case View(l) => l.Held()
    }

    /** The bytes this port will still deliver: the front of what its bare half holds. */
    ghost function Pending(): (bytes: seq<Byte>)
      requires Valid()
      reads Views(), Base()
      ensures Raw? ==> bytes == source.pending
    {
      Held().Pending()
    }

    ghost function Trace(): seq<Event>
      reads Base().channel
    {
      Base().channel.trace
    }

    ghost function Stands(): Standing
      requires Valid()
      reads Views(), Base(), Base().channel
    {
      Standing(Held(), Trace())
    }

    ghost function Report(): (state: Option<(nat, bool)>)
      requires Valid()
      reads Views(), Base()
      ensures MayReport(Pending(), state)
      decreases Height(), 1
    {
      match this
      case Raw(s) => s.Report()
      case View(l) => l.Report()
    }

    method ConsumerState() returns (state: Option<(nat, bool)>)
      requires Valid()
      ensures state == Report()
      decreases Height(), 1
    {
      match this
      case Raw(s) => state := s.ConsumerState();
      case View(l) => state := l.ConsumerState();
    }

    method Lend(demand: Demand) returns (answer: Lending)
      requires Valid()
      ensures MayLend(Pending(), Obeys(), Steady(), demand, answer)
      decreases Height(), 1
    {
      match this
      case Raw(s) => answer := s.Lend(demand);
      case View(l) => answer := l.Lend(demand);
    }

    /** What was moved out of a segment is taken from the bare half and charged to every quota. */
    method Reclaim(lent: Segment, rest: Segment)
      requires Valid() && lent.Bytes() <= Pending()
      requires TotalOf(rest.slices) <= TotalOf(lent.slices)
      modifies Views(), Base(), Base().channel
      ensures Valid()
      ensures var used := old(Pending())[..TotalOf(lent.slices) - TotalOf(rest.slices)];
        Takes(old(Held()), used, Held()) && Trace() == old(Trace()) + Ins(used)
      decreases Height(), 1
    {
      match this
      case Raw(s) =>
        TakesBare(s.pending, TotalOf(lent.slices) - TotalOf(rest.slices));
        s.Reclaim(lent, rest);
      case View(l) => l.Reclaim(lent, rest);
    }
  }

  /** What came of borrowing a segment of `lent` bytes, moving `bytes` out and giving it back. */
  datatype Taken = Took(lent: nat, bytes: seq<Byte>) | Kept(tag: ErrTag) {
    function Bytes(): seq<Byte> {
      if Took? then bytes else []
    }
  }

  /** Give a segment back after `n` bytes were moved out of its front. */
  method GiveBack(src: Port, segm: Segment, n: nat)
    requires src.Valid() && segm.Bytes() <= src.Pending() && n <= |segm.Bytes()|
    modifies src.Views(), src.Base(), src.Base().channel
    ensures src.Valid() && Takes(old(src.Held()), segm.Bytes()[..n], src.Held())
    ensures src.Trace() == old(src.Trace()) + Ins(segm.Bytes()[..n])
  {
    assert src.Pending()[..n] == segm.Bytes()[..n];
    src.Reclaim(segm, Segment(MoveOut(segm.slices, n)));
  }

  /** Borrow for `demand`, move at most `appetite` bytes out of the segment, give it back. */
  method Take(src: Port, demand: Demand, appetite: nat) returns (taken: Taken)
    requires src.Valid()
    modifies src.Views(), src.Base(), src.Base().channel
    ensures src.Valid() && Takes(old(src.Held()), taken.Bytes(), src.Held())
    ensures src.Trace() == old(src.Trace()) + Ins(taken.Bytes())
    ensures taken.Took? ==>
      && |taken.bytes| == (if appetite < taken.lent then appetite else taken.lent)
      && taken.lent <= |old(src.Pending())| && (src.Obeys() ==> demand.Allows(taken.lent))
      && (src.Steady() && demand.Wants() ==> taken.lent > 0)
    ensures taken.Kept? ==> MayLend(src.Pending(), src.Obeys(), src.Steady(), demand, Refused(taken.tag))
  {
    var answer := src.Lend(demand);
    if answer.Refused? {
      TakesNothing(src.Held());
      return Kept(answer.tag);
    }
    var total := TotalOf(answer.segm.slices);
    var n := Least(appetite, total);
    taken := Took(total, answer.segm.Bytes()[..n]);
    GiveBack(src, answer.segm, n);
  }

  /** One read of at most `most` bytes; cancelled or refused, it reads nothing. */
  method ReadSome(src: Port, most: nat) returns (bytes: seq<Byte>)
    requires src.Valid() && src.Obeys()
    modifies src.Views(), src.Base(), src.Base().channel
    ensures src.Valid() && Takes(old(src.Held()), bytes, src.Held()) && |bytes| <= most
    ensures src.Trace() == old(src.Trace()) + Ins(bytes)
    ensures src.Steady() && most > 0 && old(src.Pending()) != [] ==> bytes != []
  {
    var cancelled: bool := *;
    if cancelled && !src.Steady() {
      TakesNothing(src.Held());
      return [];
    }
    var taken := Take(src, NoMoreThan(most), most);
    bytes := taken.Bytes();
    TakesFront(old(src.Held()), bytes, src.Held());
  }

  /** Read exactly `total` bytes, or as many as came before the port failed; a steady port has them or ends. */
  method ReadExact(src: Port, total: nat) returns (ok: bool, filled: seq<Byte>)
    requires src.Valid() && src.Obeys()
    modifies src.Views(), src.Base(), src.Base().channel
    ensures src.Valid() && Takes(old(src.Held()), filled, src.Held())
    ensures src.Trace() == old(src.Trace()) + Ins(filled)
    ensures old(src.Pending()) == filled + src.Pending() && Advanced(old(src.Stands()), src.Stands())
    ensures if ok then |filled| == total else |filled| < total
    ensures src.Steady() ==> (ok <==> total <= |old(src.Pending())|)
  {
    filled, ok := [], true;
    TakesNothing(src.Held());
    while ok && |filled| < total
      invariant src.Valid() && Takes(old(src.Held()), filled, src.Held())
      invariant src.Trace() == old(src.Trace()) + Ins(filled)
      invariant |filled| <= total && (!ok ==> |filled| < total && (src.Steady() ==> src.Pending() == []))
      decreases ok, total - |filled|
    {
      ghost var held := src.Held();
      var bytes := ReadSome(src, total - |filled|);
      TakesOnce(old(src.Trace()), old(src.Held()), filled, held, bytes, src.Held());
      TakesFront(held, bytes, src.Held());
      filled, ok := filled + bytes, bytes != [];
    }
    TakesFront(old(src.Held()), filled, src.Held());
    AdvancedBy(old(src.Stands()), filled, src.Stands());
  }

  /** A read view that stops after a preset number of bytes. */
  class LimitedReader {
    const inner: Port
    const steady: bool
    var remaining: nat

    ghost const limit: nat
    ghost const base: ByteSource
    ghost const height: nat
    ghost const views: set<LimitedReader>
    ghost var moved: seq<Byte>

    ghost predicate Valid()
      reads views, base
      decreases height, 0
    {
      && this in views && this !in inner.Views() && views == inner.Views() + {this}
      && inner.Height() < height && base == inner.Base()
      && inner.Obeys() && inner.Valid() && steady == inner.Steady()
      && limit == |moved| + remaining
    }

    constructor (inner: Port, limit: nat)
      requires inner.Valid() && inner.Obeys()
      ensures Valid() && fresh(this) && views == {this} + inner.Views() && base == inner.Base()
      ensures this.inner == inner && this.limit == limit && remaining == limit && moved == []
    {
      this.inner, this.limit, remaining, steady := inner, limit, limit, inner.Steady();
      base, height := inner.Base(), inner.Height() + 1;
      views := {this} + inner.Views();
      moved := [];
    }

    ghost function Held(): (held: Supply)
      requires Valid()
      reads views, base
      ensures held.bytes == base.pending
      decreases height, 0
    {
      Stock(base.pending, [remaining] + inner.Held().quotas)
    }

    ghost function Pending(): seq<Byte>
      requires Valid()
      reads views, base
    {
      Held().Pending()
    }

    /** A view delivers what its quota leaves of the port behind it. */
    lemma PendingWithin()
      requires Valid()
      ensures Pending() == inner.Pending()[..Least(remaining, |inner.Pending()|)]
    {
      CoverCons(remaining, inner.Held().quotas, |base.pending|);
    }

    ghost function Report(): (state: Option<(nat, bool)>)
      requires Valid()
      reads views, base
      ensures MayReport(Pending(), state)
      ensures state.Some? && remaining == 0 ==> state.value.1
      decreases height, 0
    {
      PendingWithin();
      UnderQuota(inner.Report(), remaining)
    }

    method ConsumerState() returns (state: Option<(nat, bool)>)
      requires Valid()
      ensures state == Report()
      decreases height, 0
    {
      state := inner.ConsumerState();
      if state.Some? {
        var (avail, closed) := state.value;
        state := Some((if avail <= remaining then avail else remaining, closed || remaining == 0));
      }
    }

    method Lend(demand: Demand) returns (answer: Lending)
      requires Valid()
      ensures MayLend(Pending(), true, steady, demand, answer)
      ensures answer.Lent? ==> TotalOf(answer.segm.slices) <= remaining
      decreases height, 0
    {
      PendingWithin();
      var narrowed := Narrow(demand, remaining);
      if narrowed.None? {
        assert remaining > 0 && demand.Allows(demand.least) ==> remaining < demand.least;
        return Refused(Closing);
      }
      var cancelled: bool := *;
      if cancelled && !steady {
        return Refused(Cancelled);
      }
      answer := inner.Lend(narrowed.value);
      assert narrowed.value.Allows(narrowed.value.least);
      assert demand.Wants() ==> narrowed.value.Wants() || remaining < demand.Need();
    }

    /** Reclaiming a segment charges the quota with what was moved out of it. */
    method Reclaim(lent: Segment, rest: Segment)
      requires Valid() && lent.Bytes() <= Pending()
      requires TotalOf(rest.slices) <= TotalOf(lent.slices)
      modifies views, base, base.channel
      ensures Valid()
      ensures var used := old(Pending())[..TotalOf(lent.slices) - TotalOf(rest.slices)];
        && Takes(old(Held()), used, Held())
        && base.channel.trace == old(base.channel.trace) + Ins(used)
        && remaining == old(remaining) - |used| && moved == old(moved) + used
      decreases height, 0
    {
      PendingWithin();
      ChargeCons(remaining, inner.Held().quotas, TotalOf(lent.slices) - TotalOf(rest.slices));
      var used := SatSub(TotalOf(lent.slices), TotalOf(rest.slices));
      assert inner.Pending()[..used] == Pending()[..used];
      moved := moved + Pending()[..used];
      remaining := SatSub(remaining, used);
      inner.Reclaim(lent, rest);
    }

    /** Give a segment back after `n` bytes were moved out of its front. */
    method GiveBack(segm: Segment, n: nat)
      requires Valid() && segm.Bytes() <= Pending() && n <= |segm.Bytes()|
      modifies views, base, base.channel
      ensures Valid() && Takes(old(Held()), segm.Bytes()[..n], Held())
      ensures base.channel.trace == old(base.channel.trace) + Ins(segm.Bytes()[..n])
      ensures remaining == old(remaining) - n && moved == old(moved) + segm.Bytes()[..n]
    {
      assert Pending()[..n] == segm.Bytes()[..n];
      Reclaim(segm, Segment(MoveOut(segm.slices, n)));
    }
  }

  /** The same through a quota: everything it and the quotas behind it cover is charged alike. */
  method TakeLimited(src: LimitedReader, demand: Demand, appetite: nat) returns (taken: Taken)
    requires src.Valid()
    modifies src.views, src.base, src.base.channel
    ensures src.Valid() && Takes(old(src.Held()), taken.Bytes(), src.Held())
    ensures src.base.channel.trace == old(src.base.channel.trace) + Ins(taken.Bytes())
    ensures src.moved == old(src.moved) + taken.Bytes() && src.remaining == old(src.remaining) - |taken.Bytes()|
    ensures taken.Took? ==> |taken.bytes| == if appetite < taken.lent then appetite else taken.lent
    ensures taken.Took? ==>
      && demand.Allows(taken.lent) && taken.lent <= |old(src.Pending())|
      && (src.steady && demand.Wants() ==> taken.lent > 0)
    ensures taken.Kept? ==> MayLend(src.Pending(), true, src.steady, demand, Refused(taken.tag))
  {
    var answer := src.Lend(demand);
    if answer.Refused? {
      TakesNothing(src.Held());
      return Kept(answer.tag);
    }
    var total := TotalOf(answer.segm.slices);
    var n := Least(appetite, total);
    taken := Took(total, answer.segm.Bytes()[..n]);
    src.GiveBack(answer.segm, n);
  }

  /** One borrow: what to ask for and how much of it to use. */
  datatype Wish = Wish(demand: Demand, appetite: nat)

  /** Each of them is content with one byte, and uses it. */
  predicate Greedy(wishes: seq<Wish>) {
    forall i :: 0 <= i < |wishes| ==> wishes[i].demand.Allows(1) && wishes[i].appetite > 0
  }

  /** Each borrow took no more than it would use. */
  predicate WithinAppetites(parts: seq<seq<Byte>>, wishes: seq<Wish>) {
    |parts| <= |wishes| && forall i :: 0 <= i < |parts| ==> |parts[i]| <= wishes[i].appetite
  }

  lemma OneMorePart(parts: seq<seq<Byte>>, part: seq<Byte>, wishes: seq<Wish>)
    requires WithinAppetites(parts, wishes) && |parts| < |wishes| && |part| <= wishes[|parts|].appetite
    ensures WithinAppetites(parts + [part], wishes)
  {
    var all := parts + [part];
    forall i | 0 <= i < |all|
      ensures |all[i]| <= wishes[i].appetite
    {
      assert all[i] == if i < |parts| then parts[i] else part;
    }
  }

  /**
   * Any sequence of borrows, each consumed as far as its appetite goes, charges this quota and
   * every quota behind it with exactly the bytes moved, and the bare half advances by the same.
   * Greedy borrows over a steady half move on as long as there is anything to move.
   */
  method BorrowMany(src: LimitedReader, borrows: seq<Wish>)
    returns (ghost moved: seq<Byte>, ghost parts: seq<seq<Byte>>)
    requires src.Valid()
    modifies src.views, src.base, src.base.channel
    ensures src.Valid() && Takes(old(src.Held()), moved, src.Held())
    ensures src.base.channel.trace == old(src.base.channel.trace) + Ins(moved)
    ensures src.moved == old(src.moved) + moved && src.remaining == old(src.remaining) - |moved|
    ensures old(src.base.pending) == moved + src.base.pending && old(src.Pending()) == moved + src.Pending()
    ensures |moved| <= old(src.remaining)
    ensures moved == Concat(parts) && |parts| == |borrows| && WithinAppetites(parts, borrows)
    ensures src.steady && Greedy(borrows) ==> |moved| >= Least(|borrows|, |old(src.Pending())|)
  {
    ghost var start, trace, done := src.Held(), src.base.channel.trace, src.moved;
    moved, parts := [], [];
    TakesNothing(start);
    var i := 0;
    while i < |borrows|
      invariant src.Valid() && i <= |borrows| && Takes(start, moved, src.Held())
      invariant src.base.channel.trace == trace + Ins(moved)
      invariant src.moved == done + moved && src.remaining == old(src.remaining) - |moved|
      invariant moved == Concat(parts) && |parts| == i && WithinAppetites(parts, borrows)
      invariant src.steady && Greedy(borrows) ==> |moved| >= Least(i, |start.Pending()|)
    {
      TakesFront(start, moved, src.Held());
      ghost var held := src.Held();
      var taken := TakeLimited(src, borrows[i].demand, borrows[i].appetite);
      TakesOnce(trace, start, moved, held, taken.Bytes(), src.Held());
      Associate(done, moved, taken.Bytes());
      ConcatSnoc(parts, taken.Bytes());
      OneMorePart(parts, taken.Bytes(), borrows);
      moved, parts := moved + taken.Bytes(), parts + [taken.Bytes()];
      i := i + 1;
    }
    TakesFront(start, moved, src.Held());
  }

  /** A quota inside a quota: what comes through the outer one is paid for by both. */
  method BorrowNested(outer: LimitedReader, inner: LimitedReader, borrows: seq<Wish>)
    returns (ghost moved: seq<Byte>)
    requires outer.Valid() && outer.inner == View(inner)
    modifies outer.views, outer.base, outer.base.channel
    ensures outer.Valid() && |moved| <= Least(old(outer.remaining), old(inner.remaining))
    ensures outer.remaining == old(outer.remaining) - |moved| && inner.remaining == old(inner.remaining) - |moved|
    ensures old(outer.base.pending) == moved + outer.base.pending
    ensures outer.steady && Greedy(borrows) ==> |moved| >= Least(|borrows|, |old(outer.Pending())|)
  {
    BothQuotas(outer, inner);
    ghost var quotas := outer.Held().quotas;
    CoverAt(quotas, |outer.base.pending|, 1);
    ghost var parts;
    moved, parts := BorrowMany(outer, borrows);
    BothQuotas(outer, inner);
    ChargeAt(quotas, |moved|, 1);
  }

  lemma BothQuotas(outer: LimitedReader, inner: LimitedReader)
    requires outer.Valid() && outer.inner == View(inner)
    ensures |outer.Held().quotas| >= 2
    ensures outer.Held().quotas[0] == outer.remaining && outer.Held().quotas[1] == inner.remaining
  {
    assert outer.inner.Valid() && inner.Valid();
    assert outer.inner.Held() == inner.Held();
  }
}
