/** The chunk encoder: everything a source yields, framed into a target. */
module ChunkedEncode {
  import opened Wrappers
  import opened Octets
  import opened Demands
  import opened Channels
  import opened Readers
  import opened Writers
  import opened ChunkFormat

  datatype EncodeError =
    | Source(tag: ErrTag)
    | Target(tag: ErrTag)
    | Cancelled
    | EmptySegment
    | Unsatisfied(expected: nat, got: nat)

  /** How much of a frame a target segment of `room` bytes took before the encoder gave up. */
  function Partial(frame: seq<Byte>, room: nat): (part: seq<Byte>)
    ensures part <= frame && |part| == if room < |frame| then room else |frame|
  {
    if room < |frame| then frame[..room] else frame
  }

  /** The size of a chunk, settled before anything is written. */
  function ChunkCap(source: Option<(nat, bool)>, target: Option<(nat, bool)>): (cap: nat)
    ensures 1 <= cap <= MAX_CHUNK
    ensures target.Some? ==> 2 + cap <= Max(target.value.0, 3)
    ensures source.Some? && source.value.0 > 0 ==> cap <= source.value.0
  {
    var room := if target.Some? then Max(SatSub(target.value.0, 2), 1) else MAX_CHUNK;
    var cap := if source.Some? && source.value.0 > 0 then Min(source.value.0, room) else room;
    Min(cap, MAX_CHUNK)
  }

  /** No larger size would do. */
  lemma ChunkCapIsLargest(source: Option<(nat, bool)>, target: Option<(nat, bool)>, n: nat)
    requires n <= 0xffff && (target.Some? ==> 2 + n <= Max(target.value.0, 3))
    requires source.Some? && source.value.0 > 0 ==> n <= source.value.0
    ensures n <= ChunkCap(source, target)
  {
  }

  function Max(a: nat, b: nat): nat { if a < b then b else a }

  function Min(a: nat, b: nat): nat { if a < b then a else b }

  /**
   * What a call did: the frames it finished, and the frame of `last` of which the target took
   * only the front `torn`.
   */
  datatype Account = Account(chunks: seq<seq<Byte>>, last: seq<Byte>, torn: seq<Byte>) {
    ghost predicate Sound() {
      AllSized(chunks) && |last| <= MAX_CHUNK && torn < Frame(last)
    }

    /** The bytes the target gained. */
    ghost function Gained(): seq<Byte>
      requires Sound()
    {
      Frames(chunks) + torn
    }

    /** The bytes that left the source. */
    ghost function Left(): seq<Byte>
      requires Sound()
    {
      Concat(chunks) + last[..Moved(|torn|)]
    }
  }

  /** The bytes of a chunk that went out with the first `written` bytes of its frame. */
  function Moved(written: nat): nat {
    SatSub(written, 2)
  }

  /** One more frame, whole or cut short, extends the account. */
  lemma Extend(acc: Account, chunk: seq<Byte>, part: seq<Byte>) returns (all: Account)
    requires acc.Sound() && acc.torn == [] && |chunk| <= MAX_CHUNK && part <= Frame(chunk)
    requires part == Frame(chunk) ==> Sized(chunk)
    ensures all.Sound() && all.Gained() == acc.Gained() + part
    ensures all.Left() == acc.Left() + chunk[..Moved(|part|)]
    ensures all.torn == if part == Frame(chunk) then [] else part
  {
    assert acc.Gained() == Frames(acc.chunks) && acc.Left() == Concat(acc.chunks);
    if part == Frame(chunk) {
      all := Account(acc.chunks + [chunk], [], []);
      FramesSnoc(acc.chunks, chunk);
      ConcatSnoc(acc.chunks, chunk);
    } else {
      all := Account(acc.chunks, chunk, part);
    }
  }

  /**
   * Offer one frame to the target: it is taken whole, or cut short by a target that grants too
   * little. A `calm` call is not cancelled.
   */
  method Offer(dst: OutPort, frame: seq<Byte>, calm: bool) returns (refused: Option<EncodeError>, part: seq<Byte>)
    requires dst.Valid()
    modifies dst.Views(), dst.Base(), dst.Base().channel
    ensures dst.Valid() && dst.Sent() == old(dst.Sent()).Plus(part)
    ensures dst.Trace() == old(dst.Trace()) + Outs(part)
    ensures part <= frame && (refused.Some? ==> part == [])
    ensures refused.None? && dst.Obeys() ==> part == frame
    ensures calm && dst.Steady() && frame != [] && old(dst.Covers(|frame|)) ==> refused.None?
    ensures refused.Some? ==> refused.value.Cancelled? || refused.value.Target?
  {
    part := [];
    PlusNothing(dst.Sent());
    var cancelled: bool := *;
    if cancelled && !calm {
      return Some(EncodeError.Cancelled), [];
    }
    var granted := dst.Lend(Exactly(|frame|));
    if granted.NoRoom? {
      return Some(Target(granted.tag)), [];
    }
    part := Partial(frame, granted.room);
    dst.Put(granted.room, part);
    refused := None;
  }

  /** Write a borrowed segment as one frame; the source gives up what reached the target. */
  method WriteChunk(src: Port, dst: OutPort, segm: Segment, calm: bool)
    returns (failed: Option<EncodeError>, part: seq<Byte>)
    requires src.Valid() && dst.Valid()
    requires segm.Bytes() <= src.Pending() && Sized(segm.Bytes())
    modifies src.Views(), src.Base(), src.Base().channel, dst.Views(), dst.Base(), dst.Base().channel
    ensures src.Valid() && dst.Valid()
    ensures part <= Frame(segm.Bytes()) && (failed.None? <==> part == Frame(segm.Bytes()))
    ensures dst.Sent() == old(dst.Sent()).Plus(part)
    ensures Takes(old(src.Held()), segm.Bytes()[..Moved(|part|)], src.Held())
    ensures src.Base().channel != dst.Base().channel ==> dst.Trace() == old(dst.Trace()) + Outs(part)
    ensures dst.Obeys() ==> failed.Some? ==> part == [] && !failed.value.Unsatisfied?
    ensures failed.Some? ==> !failed.value.Source?
    ensures calm && dst.Steady() && dst.Into? ==> failed.None?
  {
    var len := TotalOf(segm.slices);
    var frame := Header(len) + segm.Bytes();
    label Borrowed:
    failed, part := Offer(dst, frame, calm);
    assert unchanged@Borrowed(src.Views(), src.Base());
    label Offered:
    GiveBack(src, segm, Moved(|part|));
    assert unchanged@Offered(dst.Views(), dst.Base());
    if failed.None? && part != frame {
      failed := Some(if |part| < 2 then EncodeError.Unsatisfied(2 + len, |part|)
                     else EncodeError.Unsatisfied(len, Moved(|part|)));
    }
  }

  /** One turn of the encoder: the source is done, the turn failed, or one chunk was written. */
  datatype Turn = Finished | Failed(error: EncodeError) | Wrote

  /** Look at both ends and settle the size of the next chunk, unless the source says that it is done. */
  method SettleCap(src: Port, dst: OutPort) returns (done: bool, cap: nat)
    requires src.Valid() && dst.Valid()
    ensures done ==> src.Pending() == []
    ensures cap == ChunkCap(src.Report(), dst.Report())
  {
    var source := src.ConsumerState();
    var target := dst.ProducerState();
    done, cap := source == Some((0, true)), ChunkCap(source, target);
  }

  /** Settle the size of the next chunk and borrow it. */
  method BorrowNext(src: Port, dst: OutPort, calm: bool) returns (turn: Turn, segm: Segment)
    requires src.Valid() && dst.Valid()
    ensures turn.Wrote? ==> segm.Bytes() <= src.Pending() && Sized(segm.Bytes())
    ensures turn.Wrote? ==> |segm.Bytes()| <= ChunkCap(src.Report(), dst.Report())
    ensures turn.Finished? ==> src.Pending() == []
    ensures turn.Failed? ==> turn.error != Source(Closing)
    ensures turn.Failed? && src.Obeys() ==> !turn.error.Unsatisfied?
    ensures calm && src.Steady() ==> !turn.Failed?
  {
    segm := Segment([]);
    var done, cap := SettleCap(src, dst);
    if done {
      return Finished, segm;
    }
    var cancelled: bool := *;
    if cancelled && !calm {
      return Failed(EncodeError.Cancelled), segm;
    }
    assert NoMoreThan(cap).Need() == 1;
    var borrowed := src.Lend(NoMoreThan(cap));
    turn := Judge(borrowed, cap);
    segm := if turn.Wrote? then borrowed.segm else segm;
  }

  /** What a borrow of at most `cap` bytes means for the turn. */
  function Judge(borrowed: Lending, cap: nat): Turn {
    match borrowed
    case Refused(tag) => if tag == Closing then Finished else Failed(Source(tag))
    case Lent(segm) =>
      var len := TotalOf(segm.slices);
      if len == 0 then Failed(EmptySegment)
      else if len > cap then Failed(EncodeError.Unsatisfied(cap, len))
      else Wrote
  }

  method WriteNext(src: Port, dst: OutPort, calm: bool) returns (turn: Turn, chunk: seq<Byte>, part: seq<Byte>)
    requires src.Valid() && dst.Valid()
    modifies src.Views(), src.Base(), src.Base().channel, dst.Views(), dst.Base(), dst.Base().channel
    ensures src.Valid() && dst.Valid()
    ensures chunk <= old(src.Pending()) && |chunk| <= MAX_CHUNK && part <= Frame(chunk)
    ensures dst.Sent() == old(dst.Sent()).Plus(part)
    ensures Takes(old(src.Held()), chunk[..Moved(|part|)], src.Held())
    ensures src.Base().channel != dst.Base().channel ==> dst.Trace() == old(dst.Trace()) + Outs(part)
    ensures turn.Wrote? <==> part == Frame(chunk)
    ensures turn.Wrote? ==> Sized(chunk)
    ensures |chunk| <= ChunkCap(old(src.Report()), old(dst.Report()))
    ensures calm && src.Steady() && dst.Steady() && dst.Into? ==> !turn.Failed?
    ensures turn.Finished? ==> src.Pending() == [] && part == []
    ensures dst.Obeys() ==> !turn.Wrote? ==> part == []
    ensures turn.Failed? && src.Obeys() && dst.Obeys() ==> !turn.error.Unsatisfied?
    ensures turn.Failed? ==> turn.error != Source(Closing)
  {
    var segm;
    turn, segm := BorrowNext(src, dst, calm);
    chunk, part := [], [];
    TakesNothing(src.Held());
    PlusNothing(dst.Sent());
    if turn.Wrote? {
      chunk := segm.Bytes();
      var failed;
      failed, part := WriteChunk(src, dst, segm, calm);
      turn := if failed.Some? then Failed(failed.value) else Wrote;
    }
  }

  method WriteTerminator(dst: OutPort, calm: bool, ghost acc: Account)
    returns (failed: Option<EncodeError>, part: seq<Byte>, ghost all: Account)
    requires dst.Valid() && acc.Sound() && acc.torn == []
    modifies dst.Views(), dst.Base(), dst.Base().channel
    ensures dst.Valid() && dst.Sent() == old(dst.Sent()).Plus(part)
    ensures dst.Trace() == old(dst.Trace()) + Outs(part)
    ensures failed.None? ==> part == TERMINATOR && all == acc
    ensures failed.Some? ==> all.Sound() && all.Gained() == acc.Gained() + part && all.Left() == acc.Left()
    ensures failed.Some? && dst.Obeys() ==> all.torn == [] && !failed.value.Unsatisfied?
    ensures failed.Some? ==> !failed.value.Source?
    ensures calm && dst.Steady() && dst.Into? ==> failed.None?
  {
    failed, part := Offer(dst, TERMINATOR, calm);
    all := acc;
    if failed.None? && |part| != 2 {
      failed := Some(EncodeError.Unsatisfied(2, |part|));
      all := Extend(acc, [], part);
    }
  }

  /** Frame chunk after chunk until the source ends or a turn fails. */
  method WriteChunks(src: Port, dst: OutPort, calm: bool)
    returns (failed: Option<EncodeError>, wire: nat, gained: seq<Byte>, ghost acc: Account)
    requires src.Valid() && dst.Valid()
    modifies src.Views(), src.Base(), src.Base().channel, dst.Views(), dst.Base(), dst.Base().channel
    ensures src.Valid() && dst.Valid() && acc.Sound()
    ensures gained == acc.Gained() && dst.Sent() == old(dst.Sent()).Plus(gained)
    ensures Takes(old(src.Held()), acc.Left(), src.Held()) && old(src.Pending()) == acc.Left() + src.Pending()
    ensures src.Base().channel != dst.Base().channel ==> dst.Trace() == old(dst.Trace()) + Outs(gained)
    ensures failed.None? ==> src.Pending() == [] && wire == |gained|
    ensures failed.None? || dst.Obeys() ==> acc.torn == []
    ensures src.Obeys() && dst.Obeys() && failed.Some? ==> !failed.value.Unsatisfied?
    ensures failed.Some? ==> failed.value != Source(Closing)
    ensures calm && src.Steady() && dst.Steady() && dst.Into? ==> failed.None?
  {
    var turn := Wrote;
    wire, gained, acc := 0, [], Account([], [], []);
    TakesNothing(src.Held());
    PlusNothing(dst.Sent());
    while turn.Wrote?
      invariant src.Valid() && dst.Valid() && acc.Sound()
      invariant gained == acc.Gained() && dst.Sent() == old(dst.Sent()).Plus(gained)
      invariant Takes(old(src.Held()), acc.Left(), src.Held())
      invariant src.Base().channel != dst.Base().channel ==> dst.Trace() == old(dst.Trace()) + Outs(gained)
      invariant !turn.Failed? ==> acc.torn == [] && wire == |gained|
      invariant turn.Finished? ==> src.Pending() == []
      invariant turn.Failed? && dst.Obeys() ==> acc.torn == []
      invariant turn.Failed? && src.Obeys() && dst.Obeys() ==> !turn.error.Unsatisfied?
      invariant turn.Failed? ==> turn.error != Source(Closing)
      invariant calm && src.Steady() && dst.Steady() && dst.Into? ==> !turn.Failed?
      decreases turn.Wrote?, |src.Pending()|
    {
      ghost var held := src.Held();
      var chunk, part;
      turn, chunk, part := WriteNext(src, dst, calm);
      ghost var left := chunk[..Moved(|part|)];
      TakesFront(held, left, src.Held());
      TakesTwice(old(src.Held()), acc.Left(), held, left, src.Held());
      PutTwice(old(dst.Sent()), old(dst.Trace()), gained, part);
      acc := Extend(acc, chunk, part);
      gained := gained + part;
      wire := if turn.Wrote? then wire + |part| else wire;
    }
    TakesFront(old(src.Held()), acc.Left(), src.Held());
    failed := if turn.Failed? then Some(turn.error) else None;
  }

  /** After the chunks: close with the terminator, unless a turn failed. */
  method Close(dst: OutPort, failed: Option<EncodeError>, len: nat, calm: bool, ghost gained: seq<Byte>,
               ghost acc: Account)
    returns (res: Result<nat, EncodeError>, part: seq<Byte>, ghost all: Account)
    requires dst.Valid() && acc.Sound() && gained == acc.Gained()
    requires failed.None? ==> len == |gained| && acc.torn == []
    modifies dst.Views(), dst.Base(), dst.Base().channel
    ensures dst.Valid() && dst.Sent() == old(dst.Sent()).Plus(part)
    ensures dst.Trace() == old(dst.Trace()) + Outs(part)
    ensures all.Sound() && all.Left() == acc.Left()
    ensures gained + part == all.Gained() + if res.Ok? then TERMINATOR else []
    ensures res.Ok? ==> failed.None? && all == acc && res.value == |gained + part|
    ensures res.Err? && failed.Some? ==> all == acc && res.error == failed.value
    ensures res.Err? && failed.None? ==> !res.error.Source?
    ensures calm && dst.Steady() && dst.Into? && failed.None? ==> res.Ok?
    ensures res.Err? && failed.None? && dst.Obeys() ==> all.torn == [] && !res.error.Unsatisfied?
  {
    all, part := acc, [];
    PlusNothing(dst.Sent());
    if failed.Some? {
      assert gained + [] + [] == gained;
      return Err(failed.value), part, all;
    }
    var cut;
    cut, part, all := WriteTerminator(dst, calm, acc);
    assert cut.Some? ==> gained + part + [] == all.Gained() + [];
    res := if cut.Some? then Err(cut.value) else Ok(len + 2);
  }

  /**
   * Move all of `src` into `dst` as chunks and close with the terminator. At every exit `acc`
   * tells exactly what the target gained and what left the source, quotas on the way charged;
   * only a target that grants less than it was asked for leaves a torn frame behind. Between steady
   * halves nothing fails.
   */
  method WriteAll(src: Port, dst: OutPort)
    returns (res: Result<nat, EncodeError>, ghost acc: Account, ghost wire: seq<Byte>)
    requires src.Valid() && dst.Valid()
    modifies src.Views(), src.Base(), src.Base().channel, dst.Views(), dst.Base(), dst.Base().channel
    ensures src.Valid() && dst.Valid() && acc.Sound()
    ensures wire == acc.Gained() + if res.Ok? then TERMINATOR else []
    ensures dst.Sent() == old(dst.Sent()).Plus(wire)
    ensures Takes(old(src.Held()), acc.Left(), src.Held())
    ensures old(src.Pending()) == acc.Left() + src.Pending()
    ensures src.Base().channel != dst.Base().channel ==> dst.Trace() == old(dst.Trace()) + Outs(wire)
    ensures res.Ok? ==> src.Pending() == [] && acc.torn == [] && res.value == |wire|
    ensures dst.Obeys() ==> acc.torn == []
    ensures src.Obeys() && dst.Obeys() && res.Err? ==> !res.error.Unsatisfied?
    ensures res.Err? ==> res.error != Source(Closing)
    ensures src.Steady() && dst.Steady() && dst.Into? ==> res.Ok?
  {
    var calm := src.Steady() && dst.Steady();
    ghost var sent, trace := dst.Sent(), dst.Trace();
    var failed, len, gained;
    failed, len, gained, acc := WriteChunks(src, dst, calm);
    label Chunked:
    ghost var held, pending := src.Held(), src.Pending();
    var part;
    res, part, acc := Close(dst, failed, len, calm, gained, acc);
    assert unchanged@Chunked(src.Views(), src.Base());
    assert src.Held() == held && src.Pending() == pending;
    PutTwice(sent, trace, gained, part);
    wire := gained + part;
  }

  /** A call that succeeded left a body that reads back as the source's bytes, up to any tail. */
  lemma SuccessReadsBack(acc: Account, tail: seq<Byte>)
    requires acc.Sound() && acc.torn == []
    ensures Deframe(acc.Gained() + TERMINATOR + tail) == Complete(acc.Left(), tail)
  {
    BodyRoundTrip(acc.chunks, tail);
    assert acc.Gained() == Frames(acc.chunks) && acc.Left() == Concat(acc.chunks);
  }

  /**
   * A call that failed left a body no reader takes for finished, and a reader gets from it
   * exactly the bytes that left the source.
   */
  lemma FailureReadsBack(acc: Account)
    requires acc.Sound()
    ensures var reading := Deframe(acc.Gained());
      && !reading.Complete?
      && reading.payload == acc.Left()
      && (reading.Boundary? <==> acc.torn == [])
  {
    FramesFirst(acc.chunks, acc.torn);
    TornReads(acc.last, acc.torn);
  }

  /** A front of a frame reads as the bytes of the chunk that are in it. */
  lemma TornReads(last: seq<Byte>, torn: seq<Byte>)
    requires |last| <= MAX_CHUNK && torn < Frame(last)
    ensures Deframe(torn) == if torn == [] then Boundary([]) else Torn(last[..Moved(|torn|)])
  {
    if |torn| >= 2 {
      HeaderIsBigEndian(|last|);
      assert torn[..2] == Frame(last)[..2] == Header(|last|);
      assert Deframe(torn) == Remaining(|last|, torn[2..]);
      assert torn[2..] == last[..|torn| - 2];
    }
  }

  /** What a call wrote, terminator or not, carries exactly the bytes that left the source. */
  lemma AccountReadsBack(acc: Account, wire: seq<Byte>, done: bool)
    requires acc.Sound() && (done ==> acc.torn == [])
    requires wire == acc.Gained() + if done then TERMINATOR else []
    ensures Deframe(wire).payload == acc.Left()
    ensures if done then Deframe(wire) == Complete(acc.Left(), []) else !Deframe(wire).Complete?
    ensures done ==> acc.Left() == Concat(acc.chunks) && wire == Frames(acc.chunks) + TERMINATOR
  {
    if done {
      SuccessReadsBack(acc, []);
      assert wire + [] == wire;
    } else {
      FailureReadsBack(acc);
      assert wire == acc.Gained();
    }
  }

  /**
   * A source seen through a quota ends where the quota does. At every exit exactly the bytes that
   * were framed have left the source, no more than the quota covers; success frames all of those.
   */
  method WriteLimited(src: Port, limit: nat, dst: OutPort)
    returns (res: Result<nat, EncodeError>, ghost acc: Account, ghost wire: seq<Byte>)
    requires src.Valid() && src.Obeys() && dst.Valid()
    modifies src.Views(), src.Base(), src.Base().channel, dst.Views(), dst.Base(), dst.Base().channel
    ensures src.Valid() && dst.Valid() && acc.Sound()
    ensures Takes(old(src.Held()), acc.Left(), src.Held()) && |acc.Left()| <= limit
    ensures old(src.Pending()) == acc.Left() + src.Pending()
    ensures wire == acc.Gained() + if res.Ok? then TERMINATOR else []
    ensures dst.Sent() == old(dst.Sent()).Plus(wire)
    ensures res.Ok? ==> acc.Left() == old(src.Pending())[..Least(limit, |old(src.Pending())|)]
    ensures src.Steady() && dst.Steady() && dst.Into? ==> res.Ok?
  {
    var limited := new LimitedReader(src, limit);
    ghost var held := src.Held();
    limited.PendingWithin();
    assert limited.Held() == Stock(held.bytes, [limit] + held.quotas);
    res, acc, wire := WriteAll(View(limited), dst);
    assert limited.Held() == Stock(src.Held().bytes, [limited.remaining] + src.Held().quotas);
    TakesWithin(limit, held, acc.Left(), limited.remaining, src.Held());
    TakesFront(held, acc.Left(), src.Held());
    if res.Ok? {
      assert acc.Left() + [] == acc.Left();
    }
  }
}
