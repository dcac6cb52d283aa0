/** The copy loops between read and write halves, byte for byte. */
module Copy {
  import opened Wrappers
  import opened Octets
  import opened Demands
  import opened Channels
  import opened Readers
  import opened Writers

  /** The quota that is never used up: the largest `usize`. */
  const UNLIMITED: nat := 0xffff_ffff_ffff_ffff

  datatype CopyError = Cancelled | SourceEnded | SourceFailed(tag: ErrTag) | TargetFailed(tag: ErrTag) | NoProgress

  /** One write of a front of `bytes`; cancelled or refused, it writes nothing. */
  method WriteSome(bytes: seq<Byte>, tx: OutPort) returns (part: seq<Byte>)
    requires tx.Valid()
    modifies tx.Views(), tx.Base(), tx.Base().channel
    ensures tx.Valid() && tx.Sent() == old(tx.Sent()).Plus(part) && part <= bytes
    ensures tx.Trace() == old(tx.Trace()) + Outs(part)
    ensures tx.Steady() && tx.Into? && bytes != [] ==> part != []
  {
    PlusNothing(tx.Sent());
    part := [];
    var cancelled: bool := *;
    if cancelled && !tx.Steady() {
      return;
    }
    var room := tx.Lend(NoMoreThan(|bytes|));
    if room.Granted? {
      part := bytes[..Least(room.room, |bytes|)];
      tx.Put(room.room, part);
    }
  }

  /**
   * Write bytes through as many segments as it takes; a failure leaves a front of them written. Into
   * a steady half nothing fails.
   */
  method WriteBody(bytes: seq<Byte>, tx: OutPort) returns (ok: bool, written: seq<Byte>)
    requires tx.Valid()
    modifies tx.Views(), tx.Base(), tx.Base().channel
    ensures tx.Valid() && tx.Sent() == old(tx.Sent()).Plus(written)
    ensures tx.Trace() == old(tx.Trace()) + Outs(written)
    ensures written <= bytes && (ok <==> written == bytes)
    ensures tx.Steady() && tx.Into? ==> ok
  {
    written, ok := [], true;
    PlusNothing(tx.Sent());
    while ok && |written| < |bytes|
      invariant tx.Valid() && tx.Sent() == old(tx.Sent()).Plus(written)
      invariant tx.Trace() == old(tx.Trace()) + Outs(written)
      invariant written <= bytes && (!ok ==> |written| < |bytes|)
      invariant tx.Steady() && tx.Into? ==> ok
      decreases ok, |bytes| - |written|
    {
      var part := WriteSome(bytes[|written|..], tx);
      PutTwice(old(tx.Sent()), old(tx.Trace()), written, part);
      written, ok := written + part, part != [];
    }
  }

  /** Move from a borrowed segment into granted room, as much as both allow, and give both back. */
  method Transfer(src: Port, dst: OutPort, segm: Segment, room: nat) returns (moved: seq<Byte>)
    requires src.Valid() && dst.Valid()
    requires segm.Bytes() <= src.Pending() && dst.Covers(room)
    modifies src.Views(), src.Base(), src.Base().channel, dst.Views(), dst.Base(), dst.Base().channel
    ensures src.Valid() && dst.Valid()
    ensures moved <= segm.Bytes() && |moved| == Least(TotalOf(segm.slices), room)
    ensures Takes(old(src.Held()), moved, src.Held())
    ensures dst.Sent() == old(dst.Sent()).Plus(moved)
    ensures dst.Capped? ==> dst.limited.moved == old(dst.limited.moved) + moved
  {
    moved := segm.Bytes()[..Least(TotalOf(segm.slices), room)];
    label Borrowed:
    dst.Put(room, moved);
    assert unchanged@Borrowed(src.Views(), src.Base());
    label Put:
    GiveBack(src, segm, |moved|);
    assert unchanged@Put(dst.Views(), dst.Base());
  }

  /** Borrow a segment from the source, and as much room for it. */
  method BorrowBoth(src: Port, dst: OutPort, demand: Demand)
    returns (failed: Option<CopyError>, segm: Segment, room: nat)
    requires src.Valid() && dst.Valid() && demand.Allows(demand.least)
    ensures failed.None? ==> segm.Bytes() <= src.Pending() && segm.Bytes() != [] && dst.Covers(room)
    ensures failed.None? && src.Obeys() ==> demand.Allows(TotalOf(segm.slices))
    ensures failed.None? && dst.Obeys() ==> room <= TotalOf(segm.slices)
    ensures failed == Some(SourceEnded) ==> src.Pending() == [] || |src.Pending()| < demand.least
    ensures failed.Some? && src.Steady() && dst.Steady() && demand.Wants() ==>
      failed == Some(SourceEnded) || (src.Pending() != [] && !dst.Covers(1))
    ensures failed.None? && dst.Steady() && dst.Covers(1) ==> room > 0
  {
    segm, room := Segment([]), 0;
    var cancelled: bool := *;
    if cancelled && !(src.Steady() && dst.Steady()) {
      return Some(CopyError.Cancelled), segm, room;
    }
    var answer := src.Lend(demand);
    if answer.Refused? {
      return Some(if answer.tag == Closing then SourceEnded else SourceFailed(answer.tag)), segm, room;
    }
    var want := TotalOf(answer.segm.slices);
    if want == 0 {
      return Some(NoProgress), segm, room;
    }
    var granted := dst.Lend(NoMoreThan(want));
    if granted.NoRoom? {
      return Some(TargetFailed(granted.tag)), segm, room;
    }
    return None, answer.segm, granted.room;
  }

  /**
   * One turn: borrow from the source, borrow as much room, move as many bytes as segment and room
   * allow, give both back. `lent` is the length of the segment, `room` that of the room for it.
   */
  method MoveOnce(src: Port, dst: OutPort, demand: Demand)
    returns (failed: Option<CopyError>, moved: seq<Byte>, ghost lent: nat, room: nat)
    requires src.Valid() && dst.Valid() && demand.Allows(demand.least)
    modifies src.Views(), src.Base(), src.Base().channel, dst.Views(), dst.Base(), dst.Base().channel
    ensures src.Valid() && dst.Valid()
    ensures Takes(old(src.Held()), moved, src.Held()) && dst.Sent() == old(dst.Sent()).Plus(moved)
    ensures dst.Capped? ==> dst.limited.moved == old(dst.limited.moved) + moved
    ensures |moved| == Least(lent, room) && (failed.None? <==> moved != [])
    ensures failed.None? ==> (src.Obeys() ==> demand.Allows(lent)) && (dst.Obeys() ==> room <= lent)
    ensures failed == Some(SourceEnded) ==> src.Pending() == [] || |src.Pending()| < demand.least
    ensures failed.Some? && src.Steady() && dst.Steady() && demand.Wants() ==>
      failed == Some(SourceEnded) || (src.Pending() != [] && !old(dst.Covers(1)))
  {
    var segm;
    failed, segm, room := BorrowBoth(src, dst, demand);
    moved, lent := [], TotalOf(segm.slices);
    if failed.None? {
      moved := Transfer(src, dst, segm, room);
      TakesFront(old(src.Held()), moved, src.Held());
      failed := if moved == [] then Some(NoProgress) else None;
    } else {
      TakesNothing(src.Held());
      PlusNothing(dst.Sent());
      lent, room := 0, 0;
    }
  }

  /**
   * Move exactly `size` bytes, the target capped at that many. Success moves the first `size`
   * bytes of the source in order; a failure has written exactly the bytes it took, fewer than
   * declared. Between steady halves it fails only for want of bytes.
   */
  method CopySized(src: Port, dst: OutPort, size: nat) returns (failed: Option<CopyError>, moved: seq<Byte>)
    requires src.Valid() && dst.Valid() && dst.Obeys()
    modifies src.Views(), src.Base(), src.Base().channel, dst.Views(), dst.Base(), dst.Base().channel
    ensures src.Valid() && dst.Valid()
    ensures Takes(old(src.Held()), moved, src.Held()) && dst.Sent() == old(dst.Sent()).Plus(moved)
    ensures old(src.Pending()) == moved + src.Pending()
    ensures if failed.None? then |moved| == size else |moved| < size
    ensures failed == Some(SourceEnded) ==> src.Pending() == []
    ensures src.Steady() && dst.Steady() && dst.Into? ==>
      failed == if size <= |old(src.Pending())| then None else Some(SourceEnded)
  {
    ghost var sent := dst.Sent();
    var limited := new LimitedWriter(dst, size);
    ghost var start := limited.Sent();
    failed, moved := None, [];
    TakesNothing(src.Held());
    PlusNothing(start);
    while failed.None? && |moved| < size
      invariant fresh(limited) && limited.inner == dst && limited.base == dst.Base()
      invariant limited.views == {limited} + dst.Views() && limited.limit == size
      invariant limited.Valid() && src.Valid() && limited.moved == moved
      invariant Takes(old(src.Held()), moved, src.Held()) && limited.Sent() == start.Plus(moved)
      invariant failed.Some? ==> |moved| < size
      invariant failed == Some(SourceEnded) ==> src.Pending() == []
      invariant src.Steady() && dst.Steady() && dst.Into? && failed.Some? ==> failed == Some(SourceEnded)
      decreases failed.None?, size - |moved|
    {
      CoverCons(limited.remaining, dst.Sent().quotas, 1);
      ghost var held := src.Held();
      var part;
      ghost var lent;
      var room;
      failed, part, lent, room := MoveOnce(src, Capped(limited), NoMoreThan(size - |moved|));
      TakesTwice(old(src.Held()), moved, held, part, src.Held());
      PlusTwice(start, moved, part);
      moved := moved + part;
    }
    PlusWithin(size, sent, moved, limited.remaining, dst.Sent());
    TakesFront(old(src.Held()), moved, src.Held());
  }

  /**
   * Move bytes until the source ends. Success has moved all of them in order; a failure has
   * written exactly the bytes it took. Between steady halves it fails only for more bytes than a
   * quota can count.
   */
  method CopyAll(src: Port, dst: OutPort) returns (failed: Option<CopyError>, moved: seq<Byte>)
    requires src.Valid() && src.Obeys() && dst.Valid() && dst.Obeys()
    modifies src.Views(), src.Base(), src.Base().channel, dst.Views(), dst.Base(), dst.Base().channel
    ensures src.Valid() && dst.Valid()
    ensures Takes(old(src.Held()), moved, src.Held()) && dst.Sent() == old(dst.Sent()).Plus(moved)
    ensures old(src.Pending()) == moved + src.Pending()
    ensures failed.None? ==> src.Pending() == []
    ensures src.Steady() && dst.Steady() && dst.Into? ==> (failed.None? <==> |old(src.Pending())| <= UNLIMITED)
  {
    ghost var sent := dst.Sent();
    var limited := new LimitedWriter(dst, UNLIMITED);
    ghost var start, calm := limited.Sent(), src.Steady() && dst.Steady() && dst.Into?;
    failed, moved := None, [];
    TakesNothing(src.Held());
    PlusNothing(start);
    while failed.None?
      invariant fresh(limited) && limited.inner == dst && limited.base == dst.Base()
      invariant limited.views == {limited} + dst.Views() && limited.limit == UNLIMITED
      invariant limited.Valid() && src.Valid() && limited.moved == moved
      invariant Takes(old(src.Held()), moved, src.Held()) && limited.Sent() == start.Plus(moved)
      invariant failed == Some(SourceEnded) ==> src.Pending() == []
      invariant calm && failed.Some? ==> failed == Some(SourceEnded) || (limited.remaining == 0 && src.Pending() != [])
      decreases failed.None?, |src.Pending()|
    {
      CoverCons(limited.remaining, dst.Sent().quotas, 1);
      ghost var held := src.Held();
      var part;
      failed, part := MoveSome(src, limited);
      TakesTwice(old(src.Held()), moved, held, part, src.Held());
      PlusTwice(start, moved, part);
      moved := moved + part;
    }
    PlusWithin(UNLIMITED, sent, moved, limited.remaining, dst.Sent());
    TakesFront(old(src.Held()), moved, src.Held());
    failed := if failed == Some(SourceEnded) then None else failed;
  }

  /** One turn that asks for anything at all. */
  method MoveSome(src: Port, limited: LimitedWriter) returns (failed: Option<CopyError>, part: seq<Byte>)
    requires src.Valid() && limited.Valid()
    modifies src.Views(), src.Base(), src.Base().channel, limited.views, limited.base, limited.base.channel
    ensures src.Valid() && limited.Valid()
    ensures Takes(old(src.Held()), part, src.Held()) && limited.Sent() == old(limited.Sent()).Plus(part)
    ensures limited.moved == old(limited.moved) + part && limited.remaining == old(limited.remaining) - |part|
    ensures failed.None? ==> |src.Pending()| < |old(src.Pending())|
    ensures failed == Some(SourceEnded) ==> src.Pending() == []
    ensures failed.Some? && src.Steady() && limited.steady ==>
      failed == Some(SourceEnded) || (src.Pending() != [] && Cover(old(limited.Sent()).quotas, 1) == 0)
  {
    ghost var held := src.Held();
    ghost var lent;
    var room;
    failed, part, lent, room := MoveOnce(src, Capped(limited), AtLeast(1));
    TakesFront(held, part, src.Held());
  }

  /** One read of what is left of a quota. */
  method ReadTurn(limited: LimitedReader) returns (failed: Option<CopyError>, part: seq<Byte>)
    requires limited.Valid() && limited.remaining > 0
    modifies limited.views, limited.base, limited.base.channel
    ensures limited.Valid() && Takes(old(limited.Held()), part, limited.Held())
    ensures limited.moved == old(limited.moved) + part && limited.remaining == old(limited.remaining) - |part|
    ensures failed.None? <==> part != []
    ensures failed == Some(SourceEnded) ==> limited.Pending() == []
    ensures limited.steady && failed.Some? ==> failed == Some(SourceEnded)
  {
    var want := limited.remaining;
    var taken := TakeLimited(limited, NoMoreThan(want), want);
    part := taken.Bytes();
    failed := if part != [] then None
              else if taken.Took? then Some(NoProgress)
              else Some(if taken.tag == Closing then SourceEnded else SourceFailed(taken.tag));
  }

  /** Read exactly `size` bytes through a quota; from a steady half they are read if they are there. */
  method ReadBody(rx: Port, size: nat) returns (failed: Option<CopyError>, out: seq<Byte>)
    requires rx.Valid() && rx.Obeys()
    modifies rx.Views(), rx.Base(), rx.Base().channel
    ensures rx.Valid() && Takes(old(rx.Held()), out, rx.Held())
    ensures old(rx.Pending()) == out + rx.Pending()
    ensures if failed.None? then |out| == size else |out| < size
    ensures failed == Some(SourceEnded) ==> rx.Pending() == []
    ensures rx.Steady() ==> failed == if size <= |old(rx.Pending())| then None else Some(SourceEnded)
  {
    ghost var held := rx.Held();
    var limited := new LimitedReader(rx, size);
    ghost var start := limited.Held();
    failed, out := None, [];
    TakesNothing(start);
    while failed.None? && |out| < size
      invariant fresh(limited) && limited.inner == rx && limited.base == rx.Base()
      invariant limited.views == {limited} + rx.Views() && limited.limit == size
      invariant limited.Valid() && limited.moved == out && Takes(start, out, limited.Held())
      invariant failed.Some? ==> |out| < size && (limited.steady ==> failed == Some(SourceEnded))
      invariant failed == Some(SourceEnded) ==> limited.Pending() == []
      decreases failed.None?, size - |out|
    {
      ghost var before := limited.Held();
      var part;
      failed, part := ReadTurn(limited);
      TakesTwice(start, out, before, part, limited.Held());
      out := out + part;
    }
    limited.PendingWithin();
    TakesWithin(size, held, out, limited.remaining, rx.Held());
    TakesFront(held, out, rx.Held());
  }
}
