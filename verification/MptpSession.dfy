/** The client session as it runs over its two halves: every call is a step of the state machine. */
module MptpSession {
  import opened Wrappers
  import opened Octets
  import opened Demands
  import opened Channels
  import opened Readers
  import opened Writers
  import opened ChunkFormat
  import ChunkedEncode
  import ChunkedReader
  import opened Copy
  import opened MessagePack
  import opened Prefix
  import opened PrefixReader
  import opened BodyFraming
  import opened Message
  import opened BodyView
  import opened Protocol = Session

  /** The bytes of a body that a wire carries, however far it got. */
  function Carried(plan: BodyPlan, wire: seq<Byte>): seq<Byte> {
    if plan.Chunked? then Deframe(wire).payload else wire
  }

  /**
   * Send a body as its plan says: success leaves exactly its wire, failure no whole body, and either
   * way exactly the bytes that the wire carries have left the source. Between steady halves it fails
   * only for want of declared bytes.
   */
  method SendPlanned(plan: BodyPlan, body: Port, tx: ByteSink)
    returns (done: bool, ghost chunks: seq<seq<Byte>>, ghost wire: seq<Byte>)
    requires !plan.Absent? && body.Valid() && !tx.closed && tx.obeys
    modifies tx, tx.channel, body.Views(), body.Base(), body.Base().channel
    ensures body.Valid() && !tx.closed && tx.written == old(tx.written) + wire
    ensures done ==> Fits(plan, chunks) && wire == BodyWire(plan, chunks) && Carried(plan, wire) == Concat(chunks)
    ensures old(body.Pending()) == Carried(plan, wire) + body.Pending()
    ensures done && plan.Chunked? ==> body.Pending() == []
    ensures !done ==> ReadWhole(plan, wire).None?
    ensures body.Steady() && tx.steady ==> (done <==> plan.Sized? ==> plan.size <= |old(body.Pending())|)
  {
    match plan
    case Sized(size) =>
      var failed, moved := CopySized(body, Into(tx), size);
      assert Concat([moved]) == moved + Concat([moved][1..]) == moved;
      done, chunks, wire := failed.None?, [moved], moved;
    case Chunked =>
      var res, acc, all := ChunkedEncode.WriteAll(body, Into(tx));
      ChunkedEncode.AccountReadsBack(acc, all, res.Ok?);
      done, chunks, wire := res.Ok?, acc.chunks, all;
  }

  /** A response prefix was decoded, and it declares no body where none is allowed. */
  predicate Acceptable(decoded: Decoded<ResponsePrefix>, access: AccessMethod) {
    && decoded.Ok?
    && (BodyInfo(decoded.value.0.headers).NilBody? || (access != AccessMethod.Head && access != AccessMethod.Drop))
  }

  /** Read a response prefix and the plan of its body. */
  method ReadPlanned(rx: ByteSource, access: AccessMethod) returns (read: Option<(ResponsePrefix, BodyPlan)>)
    requires rx.obeys
    modifies rx, rx.channel
    ensures TailOf(rx.pending, old(rx.pending))
    ensures read.Some? ==>
      && DecodeResponse(old(rx.pending)) == Ok((read.value.0, rx.pending))
      && PlanOf(BodyInfo(read.value.0.headers), access) == Ok(read.value.1)
    ensures rx.steady ==> (read.Some? <==> Acceptable(DecodeResponse(old(rx.pending)), access))
  {
    var res := ReadResponsePrefix(Raw(rx));
    AdvancedTail(old(Raw(rx).Stands()), Raw(rx).Stands());
    assert Raw(rx).Pending() == rx.pending;
    if res.Err? {
      return None;
    }
    PlanOfIs(res.value.headers, access);
    var bounds := PlanOf(BodyInfo(res.value.headers), access);
    return if bounds.Ok? then Some((res.value, bounds.value)) else None;
  }

  lemma OpeningMovesOn(start: ChunkedReader.Cursor)
    ensures TailOf(start.Opened().wire, start.wire) && start.Opened().Opened() == start.Opened()
  {
  }

  /** A step of the drain on a fresh chunk view: a segment lent and given back leaves the chunk open. */
  lemma PeekMoved(start: ChunkedReader.Cursor, a: ChunkedReader.Cursor, bytes: seq<Byte>, lent: nat,
                  b: ChunkedReader.Cursor)
    requires start.AtHeader() && (a == start || a == start.Opened())
    requires ChunkedReader.Step(a, Exactly(DRAIN_STEP), 0, ChunkedReader.Moved(bytes, lent), b)
    ensures b == start.Opened() && !DrainReturns(ChunkedAt(false), start.wire)
  {
    OpeningMovesOn(start);
    assert bytes == [] && start.Opened().wire[0..] == start.Opened().wire;
  }

  /** It sees the end only by reading the terminator. */
  lemma PeekEnded(start: ChunkedReader.Cursor, a: ChunkedReader.Cursor, b: ChunkedReader.Cursor)
    requires start.AtHeader() && (a == start || a == start.Opened())
    requires ChunkedReader.Step(a, Exactly(DRAIN_STEP), 0, ChunkedReader.Failed(ChunkedReader.Ended), b)
    ensures Skips(ChunkedAt(false), start.wire, b.wire)
  {
    assert a == start;
    assert start.wire[..2] == TERMINATOR;
  }

  /** It is told of a closing peer only in a chunk that could fill a step while less is to come. */
  lemma PeekClosing(start: ChunkedReader.Cursor, a: ChunkedReader.Cursor, b: ChunkedReader.Cursor)
    requires start.AtHeader() && (a == start || a == start.Opened())
    requires ChunkedReader.Step(a, Exactly(DRAIN_STEP), 0, ChunkedReader.Failed(ChunkedReader.Inner(Closing)), b)
    ensures Skips(ChunkedAt(false), start.wire, b.wire)
  {
    OpeningMovesOn(start);
    assert b == start.Opened() && b.left == HeaderLen(start.wire[..2]) && b.left >= DRAIN_STEP;
  }

  /** Unhindered, it is stopped otherwise only by a short chunk or a missing header. */
  lemma PeekStuck(start: ChunkedReader.Cursor, a: ChunkedReader.Cursor, out: ChunkedReader.Outcome,
                  b: ChunkedReader.Cursor)
    requires start.AtHeader() && (a == start || a == start.Opened())
    requires ChunkedReader.Step(a, Exactly(DRAIN_STEP), 0, out, b) && out.Failed?
    requires ChunkedReader.Unhindered(a, Exactly(DRAIN_STEP), out)
    requires !out.error.Ended? && out.error != ChunkedReader.Inner(Closing) && !out.error.WouldBlock?
    ensures !DrainReturns(ChunkedAt(false), start.wire)
  {
    OpeningMovesOn(start);
    if out.error.Unsatisfied? {
      assert start.Opened().left < DRAIN_STEP by {
        if start.Opened().left >= DRAIN_STEP {
          assert Exactly(DRAIN_STEP).Allows(DRAIN_STEP);
        }
      }
    }
  }

  predicate IsClosing(out: ChunkedReader.Outcome) {
    out == ChunkedReader.Failed(ChunkedReader.Ended) || out == ChunkedReader.Failed(ChunkedReader.Inner(Closing))
  }

  /** What a step of the drain tells about the drain of a fresh chunk view. */
  lemma PeekTells(start: ChunkedReader.Cursor, a: ChunkedReader.Cursor, out: ChunkedReader.Outcome,
                  b: ChunkedReader.Cursor)
    requires start.AtHeader() && (a == start || a == start.Opened())
    requires ChunkedReader.Step(a, Exactly(DRAIN_STEP), 0, out, b)
    requires out != ChunkedReader.Failed(ChunkedReader.WouldBlock)
    ensures out.Moved? ==> b == start.Opened() && !DrainReturns(ChunkedAt(false), start.wire)
    ensures IsClosing(out) ==> Skips(ChunkedAt(false), start.wire, b.wire)
    ensures out.Failed? && !IsClosing(out) && ChunkedReader.Unhindered(a, Exactly(DRAIN_STEP), out) ==>
      !DrainReturns(ChunkedAt(false), start.wire)
  {
    match out
    case Moved(bytes, len) => PeekMoved(start, a, bytes, len, b);
    case Failed(Ended) => PeekEnded(start, a, b);
    case Failed(Inner(Closing)) => PeekClosing(start, a, b);
    case Failed(_) =>
      if ChunkedReader.Unhindered(a, Exactly(DRAIN_STEP), out) {
        PeekStuck(start, a, out, b);
      }
  }

  /** Borrow from a chunk view and give the segment back untouched. */
  method Peek(view: ChunkedReader.ChunkedReader, ghost start: ChunkedReader.Cursor)
    returns (lent: bool, closing: bool)
    requires view.Valid() && start.AtHeader()
    requires view.Place() == start || view.Place() == start.Opened()
    modifies view, view.src.Views(), view.src.Base(), view.src.Base().channel
    ensures view.Valid() && TailOf(view.src.Pending(), start.wire)
    ensures lent ==> view.Place() == start.Opened()
    ensures !lent && closing ==> Skips(ChunkedAt(false), start.wire, view.src.Pending())
    ensures lent || (view.src.Steady() && !closing) ==> !DrainReturns(ChunkedAt(false), start.wire)
  {
    ghost var a := view.Place();
    var out, taken := view.ReadAsync(Exactly(DRAIN_STEP), 0);
    OpeningMovesOn(start);
    ChunkedReader.StepMovesForward(a, Exactly(DRAIN_STEP), 0, out, view.Place(), start.wire);
    PeekTells(start, a, out, view.Place());
    lent, closing := out.Moved?, IsClosing(out);
  }

  class MptpSession {
    const request: RequestPrefix
    const tx: ByteSink
    const rx: ByteSource
    var state: State
    var plan: Option<BodyPlan>
    var progress: Progress

    ghost predicate Valid()
      reads this, tx
    {
      !tx.closed && tx.obeys && rx.obeys
    }

    ghost function Model(): Session
      reads this, tx, rx
    {
      Session(request, state, plan, progress, tx.written, rx.pending)
    }

    /** A session over the two halves of a channel, the request prefix already written. */
    constructor (request: RequestPrefix, tx: ByteSink, rx: ByteSource)
      requires !tx.closed && tx.obeys && rx.obeys
      ensures Valid() && this.request == request && this.tx == tx && this.rx == rx
      ensures tx.written == EncodeRequest(request) ==> Model() == Begin(request, rx.pending)
    {
      this.request, this.tx, this.rx := request, tx, rx;
      state := if BodyInfo(request.headers).NilBody? then WaitingResp else SendingBody;
      plan, progress := None, Fresh;
    }

    /** Send the declared body: exactly the bytes that went out with `wire` have left the source. */
    method SendReqBody(body: Port)
      returns (outcome: Outcome, ghost chunks: seq<seq<Byte>>, ghost wire: seq<Byte>)
      requires Valid() && body.Valid() && body.Base() != rx
      modifies this`state, tx, tx.channel, body.Views(), body.Base(), body.Base().channel
      ensures Valid() && body.Valid()
      ensures SendsBody(old(Model()), chunks, wire, outcome, Model())
      ensures outcome.Rejected? ==> body.Held() == old(body.Held()) && body.Pending() == old(body.Pending())
      ensures !outcome.Rejected? ==>
        old(body.Pending()) == Carried(old(Model()).RequestPlan().value, wire) + body.Pending()
      ensures outcome.Rejected? ==> wire == []
      ensures tx.written == old(tx.written) + wire
      ensures outcome.Done? ==>
        var plan := old(Model()).RequestPlan().value;
        Fits(plan, chunks) && wire == BodyWire(plan, chunks) && Carried(plan, wire) == Concat(chunks)
      ensures outcome.Done? && old(Model()).RequestPlan().value.Chunked? ==> body.Pending() == []
      ensures MaySendBody(old(Model())) && body.Steady() && tx.steady ==>
        var plan := old(Model()).RequestPlan().value;
        outcome.Done? <==> plan.Sized? ==> plan.size <= |old(body.Pending())|
    {
      chunks, wire := [], [];
      if !state.SendingBody? {
        return Rejected, chunks, wire;
      }
      var bounds := PlanFrom(BodyInfo(request.headers));
      if bounds.Err? || bounds.value.Absent? {
        return Rejected, chunks, wire;
      }
      var done;
      done, chunks, wire := SendPlanned(bounds.value, body, tx);
      if !done {
        return Outcome.Failed, chunks, wire;
      }
      state := WaitingResp;
      outcome := Done;
    }

    /** Send a suffix as it is, until its source ends: exactly the bytes sent have left the source. */
    method SendReqSuffix(suffix: Port) returns (outcome: Outcome, bytes: seq<Byte>)
      requires Valid() && suffix.Valid() && suffix.Obeys() && suffix.Base() != rx
      modifies this`state, tx, tx.channel, suffix.Views(), suffix.Base(), suffix.Base().channel
      ensures Valid() && suffix.Valid()
      ensures SendsSuffix(old(Model()), bytes, outcome, Model())
      ensures old(suffix.Pending()) == bytes + suffix.Pending()
      ensures outcome.Rejected? ==> bytes == []
      ensures outcome.Done? ==> suffix.Pending() == []
      ensures PastBody(old(Model())) && suffix.Steady() && tx.steady ==>
        (outcome.Done? <==> |old(suffix.Pending())| <= UNLIMITED)
    {
      if !state.WaitingResp? && !state.SendingSuffix? {
        return Rejected, [];
      }
      state := SendingSuffix;
      var failed;
      failed, bytes := CopyAll(suffix, Into(tx));
      if failed.Some? {
        return Outcome.Failed, bytes;
      }
      state := WaitingResp;
      outcome := Done;
    }

    /** Read the response prefix and settle at once where the body will end. */
    method RecvRespPrefix() returns (outcome: Outcome, prefix: Option<ResponsePrefix>)
      requires Valid()
      modifies this, rx, rx.channel
      ensures Valid() && ReceivesPrefix(old(Model()), outcome, Model())
      ensures outcome.Done? ==> prefix.Some? && DecodeResponse(old(rx.pending)) == Ok((prefix.value, rx.pending))
      ensures PastBody(old(Model())) && rx.steady ==>
        (outcome.Done? <==> Acceptable(DecodeResponse(old(rx.pending)), request.access))
    {
      if !state.WaitingResp? && !state.SendingSuffix? {
        return Rejected, None;
      }
      var read := ReadPlanned(rx, request.access);
      if read.None? {
        return Outcome.Failed, None;
      }
      var (seen, bounds) := read.value;
      plan, progress, state := Some(bounds), Fresh, PrefixReady;
      return Done, Some(seen);
    }

    /** Take the body view, make any borrows through it, give it back. */
    method RecvRespBody(wishes: seq<Wish>)
      returns (ghost outcome: Outcome, ghost delivered: seq<Byte>, ghost place: ChunkedReader.Cursor)
      requires Valid()
      modifies this`state, this`progress, rx, rx.channel
      ensures Valid() && ReadsBody(old(Model()), delivered, place, outcome, Model())
      ensures rx.steady && Greedy(wishes) && old(BodyIsThere(Model())) ==>
        outcome.Done? && (AtEnd(plan.value, place) || |delivered| >= |wishes|)
    {
      outcome, delivered, place := Rejected, [], ChunkedReader.Cursor(0, false, []);
      if !state.PrefixReady? || plan.None? {
        return;
      }
      state := BodyReady;
      ghost var lost;
      progress, delivered, place, lost := ReadView(rx, plan.value, wishes);
      outcome := if lost then Outcome.Failed else Done;
    }

    /**
     * Take the body view and read exactly `size` bytes through it; a chunk view asked for nothing is
     * left alone.
     */
    method RecvErrorBody(size: nat)
      returns (failed: Option<CopyError>, body: seq<Byte>, ghost place: ChunkedReader.Cursor)
      requires Valid() && state.PrefixReady? && plan.Some? && (plan.value.Chunked? ==> size == 0)
      modifies this`state, this`progress, rx, rx.channel
      ensures Valid() && old(rx.pending) == body + rx.pending
      ensures failed.None? ==> |body| == size
      ensures rx.steady && size <= |old(rx.pending)| && size <= PlanSize(plan.value) ==> failed.None?
      ensures ReadsBody(old(Model()), body, place, Done, Model())
    {
      state := BodyReady;
      if plan.value.Chunked? {
        failed, body, progress := None, [], ChunkedAt(false);
        place := ChunkedReader.Cursor(0, false, rx.pending);
        ChunkFormat.AfterAfter(place.Ahead(), [], []);
      } else {
        var limit := if plan.value.Sized? then plan.value.size else 0;
        var left;
        failed, body, left := ReadWithin(rx, limit, size);
        progress := SizedLeft(left);
        place := ChunkedReader.Cursor(left, false, rx.pending);
      }
    }

    /** Borrow the unread rest of a sized body and give it back untouched, until a borrow fails. */
    method DrainSized(left: nat, polls: nat) returns (ended: bool)
      requires Valid()
      modifies rx, rx.channel
      ensures Valid() && rx.pending == old(rx.pending)
      ensures ended ==> DrainReturns(SizedLeft(left), rx.pending)
      ensures rx.steady && polls > 0 && DrainReturns(SizedLeft(left), rx.pending) ==> ended
    {
      var view := new LimitedReader(Raw(rx), left);
      var i := 0;
      while i < polls
        invariant Valid() && fresh(view) && view.inner == Raw(rx) && view.base == rx && view.views == {view}
        invariant view.Valid() && view.remaining == left && rx.pending == old(rx.pending)
        invariant i > 0 ==> !DrainReturns(SizedLeft(left), rx.pending)
      {
        view.PendingWithin();
        var taken := TakeLimited(view, Exactly(DRAIN_STEP), 0);
        assert rx.pending[0..] == rx.pending;
        if taken.Kept? {
          view.PendingWithin();
          return taken.tag == Closing;
        }
        i := i + 1;
      }
      ended := false;
    }

    method DrainChunks(polls: nat) returns (ended: bool)
      requires Valid()
      modifies rx, rx.channel
      ensures Valid() && TailOf(rx.pending, old(rx.pending))
      ensures ended ==> Skips(ChunkedAt(false), old(rx.pending), rx.pending)
      ensures rx.steady && polls > 0 && DrainReturns(ChunkedAt(false), old(rx.pending)) ==> ended
    {
      var view := new ChunkedReader.ChunkedReader(Raw(rx));
      ghost var start := view.Place();
      OpeningMovesOn(start);
      var i := 0;
      while i < polls
        invariant Valid() && fresh(view) && view.src == Raw(rx) && view.Valid()
        invariant view.Place() == start || view.Place() == start.Opened()
        invariant i > 0 ==> !DrainReturns(ChunkedAt(false), start.wire)
      {
        var lent, closing := Peek(view, start);
        if !lent {
          return closing;
        }
        i := i + 1;
      }
      ended := false;
    }

    /** Skip what is left of the body, as far as the session knows it, and open the suffix. */
    method RecvRespSuffix(polls: nat) returns (outcome: Outcome)
      requires Valid()
      modifies this`state, this`progress, rx, rx.channel
      ensures Valid() && OpensSuffix(old(Model()), outcome, Model())
      ensures rx.steady && polls > 0 && !outcome.Rejected? ==>
        (outcome.Done? <==> DrainReturns(old(progress), old(rx.pending)))
    {
      if !state.PrefixReady? && !state.BodyReady? {
        return Rejected;
      }
      var ended := true;
      match progress {
        case Fresh =>
        case SizedLeft(left) =>
          if left > 0 {
            ended := DrainSized(left, polls);
          }
        case ChunkedAt(done) =>
          if !done {
            ended := DrainChunks(polls);
          }
      }
      if !ended {
        return Outcome.Failed;
      }
      progress, state := Fresh, SuffixReady;
      outcome := Done;
    }
  }

  /** Read through the view of a body that starts here, and record where it was given back. */
  method ReadView(rx: ByteSource, plan: BodyPlan, wishes: seq<Wish>)
    returns (progress: Progress, ghost delivered: seq<Byte>, ghost place: ChunkedReader.Cursor, ghost lost: bool)
    requires rx.obeys
    modifies rx, rx.channel
    ensures progress == Recorded(plan, place) && place.wire == rx.pending && TailOf(rx.pending, old(rx.pending))
    ensures if lost then plan.Chunked? else ReadTo(plan, old(rx.pending), delivered, place)
    ensures rx.steady && Greedy(wishes) && ReadWhole(plan, old(rx.pending)).Some? ==>
      !lost && (AtEnd(plan, place) || |delivered| >= |wishes|)
  {
    if plan.Chunked? {
      var ended;
      ended, delivered, place, lost := ReadChunked(Raw(rx), wishes);
      progress := ChunkedAt(ended);
    } else {
      var left;
      left, delivered := ReadSized(Raw(rx), PlanSize(plan), wishes);
      progress, place, lost := SizedLeft(left), ChunkedReader.Cursor(left, false, rx.pending), false;
    }
    AdvancedTail(old(Raw(rx).Stands()), Raw(rx).Stands());
  }

  /** Read exactly `size` bytes through a quota of `limit`; `left` is what the quota still has. */
  method ReadWithin(rx: ByteSource, limit: nat, size: nat)
    returns (failed: Option<CopyError>, body: seq<Byte>, left: nat)
    requires rx.obeys
    modifies rx, rx.channel
    ensures old(rx.pending) == body + rx.pending
    ensures failed.None? ==> |body| == size
    ensures |body| <= limit && left == limit - |body|
    ensures rx.steady && size <= |old(rx.pending)| && size <= limit ==> failed.None?
  {
    var view := new LimitedReader(Raw(rx), limit);
    ghost var start, bare := view.Held(), Raw(rx).Held();
    assert start == Stock(bare.bytes, [limit] + bare.quotas);
    view.PendingWithin();
    failed, body := Copy.ReadBody(Port.View(view), size);
    left := view.remaining;
    assert view.Held() == Stock(Raw(rx).Held().bytes, [left] + Raw(rx).Held().quotas);
    TakesWithin(limit, bare, body, left, Raw(rx).Held());
    TakesFront(bare, body, Raw(rx).Held());
  }
}
