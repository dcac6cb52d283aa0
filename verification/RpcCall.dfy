/**
 * One call on the server: route it, decode it, run the service, write one reply, close the send
 * half and drain the receive half. What happened is read off the channel's own trace, in order.
 */
module RpcCall {
  import opened Wrappers
  import opened Octets
  import opened Demands
  import opened Channels
  import opened Readers
  import opened Writers
  import opened ChunkFormat
  import ChunkedEncode
  import ChunkedReader
  import opened Copy
  import opened MessagePack
  import opened Headers
  import opened Prefix
  import opened BodyFraming
  import opened Message
  import opened BodyView
  import opened Reply
  import opened ListRouter

  /** How much the closing drain takes at a time. */
  const DRAIN_STEP: nat := 4096

  datatype Act =
    | Consumed(bytes: seq<Byte>)     // off the receive half, for the request body
    | Prefixed(bytes: seq<Byte>)     // a whole reply prefix
    | Wrote(bytes: seq<Byte>)        // reply bytes other than a whole prefix
    | LetGo                          // the send half is dropped
    | Discarded(bytes: seq<Byte>)    // off the receive half, by the closing drain
  {
    function Effect(): Effect {
      match this
      case LetGo => Did([], [], [HalfClosed])
      case Consumed(bs) => Read(bs)
      case Discarded(bs) => Read(bs)
      case Prefixed(bs) => Written(bs)
      case Wrote(bs) => Written(bs)
    }
  }

  /** What acts do to a channel: the bytes they send, the bytes they take, and the trace they leave. */
  datatype Effect = Did(sent: seq<Byte>, received: seq<Byte>, events: seq<Event>) {
    function Then(e: Effect): Effect {
      Did(sent + e.sent, received + e.received, events + e.events)
    }
  }

  const NOTHING := Did([], [], [])

  function Read(bytes: seq<Byte>): Effect { Did([], bytes, Ins(bytes)) }

  function Written(bytes: seq<Byte>): Effect { Did(bytes, [], Outs(bytes)) }

  lemma ThenThen(a: Effect, b: Effect, c: Effect)
    ensures a.Then(b).Then(c) == a.Then(b.Then(c))
    ensures NOTHING.Then(a) == a == a.Then(NOTHING)
  {
    Associate(a.sent, b.sent, c.sent);
    Associate(a.received, b.received, c.received);
    Associate(a.events, b.events, c.events);
  }

  function EffectOf(acts: seq<Act>): Effect {
    if acts == [] then NOTHING else acts[0].Effect().Then(EffectOf(acts[1..]))
  }

  function SentBy(acts: seq<Act>): seq<Byte> { EffectOf(acts).sent }

  function ReceivedBy(acts: seq<Act>): seq<Byte> { EffectOf(acts).received }

  function EventsOf(acts: seq<Act>): seq<Event> { EffectOf(acts).events }

  lemma OneAct(act: Act)
    ensures EffectOf([act]) == act.Effect()
  {
    assert [act][1..] == [];
    ThenThen(act.Effect(), NOTHING, NOTHING);
  }

  lemma {:induction false} EffectAppend(a: seq<Act>, b: seq<Act>)
    ensures EffectOf(a + b) == EffectOf(a).Then(EffectOf(b))
  {
    if a == [] {
      assert a + b == b;
      ThenThen(EffectOf(b), NOTHING, NOTHING);
    } else {
      assert (a + b)[1..] == a[1..] + b;
      EffectAppend(a[1..], b);
      ThenThen(a[0].Effect(), EffectOf(a[1..]), EffectOf(b));
    }
  }

  /** What was sent on a channel, what is still to be read from it, and all that happened to it. */
  datatype Ledger = Ledger(sent: seq<Byte>, pending: seq<Byte>, trace: seq<Event>)

  ghost function LedgerOf(tx: ByteSink, rx: ByteSource): Ledger
    reads tx, rx, tx.channel
  {
    Ledger(tx.written, rx.pending, tx.channel.trace)
  }

  /** From `a` to `b` exactly this happened to the channel, in this order. */
  predicate Underwent(a: Ledger, e: Effect, b: Ledger) {
    b.sent == a.sent + e.sent && a.pending == e.received + b.pending && b.trace == a.trace + e.events
  }

  predicate Happened(a: Ledger, acts: seq<Act>, b: Ledger) {
    Underwent(a, EffectOf(acts), b)
  }

  lemma HappenedOne(a: Ledger, act: Act, b: Ledger)
    requires Underwent(a, act.Effect(), b)
    ensures Happened(a, [act], b)
  {
    OneAct(act);
  }

  lemma UnderwentTwice(a: Ledger, x: Effect, b: Ledger, y: Effect, c: Ledger)
    requires Underwent(a, x, b) && Underwent(b, y, c)
    ensures Underwent(a, x.Then(y), c)
  {
    Associate(a.sent, x.sent, y.sent);
    Associate(x.received, y.received, c.pending);
    Associate(a.trace, x.events, y.events);
  }

  lemma HappenedTwice(a: Ledger, x: seq<Act>, b: Ledger, y: seq<Act>, c: Ledger)
    requires Happened(a, x, b) && Happened(b, y, c)
    ensures Happened(a, x + y, c)
  {
    EffectAppend(x, y);
    UnderwentTwice(a, EffectOf(x), b, EffectOf(y), c);
  }

  /** What a call has to answer: a status with a message, or a value as its encoder left it. */
  datatype Answer = Refusal(status: U16, message: Text) | Value(encoded: seq<Byte>, whole: bool) {
    function Prefix(): ResponsePrefix {
      match this
      case Refusal(status, message) => StatusPrefix(status, message)
      case Value(_, _) => OkPrefix()
    }

    function Bytes(): seq<Byte> {
      if Refusal? then message else encoded
    }

    /** The answer as such came to its end, whatever became of sending it. */
    predicate Finished() {
      Value? ==> whole
    }
  }

  /** What a reply body may look like: all of the answer's bytes when no write failed, else a part of them. */
  ghost predicate BodySays(answer: Answer, body: seq<Byte>, sent: bool) {
    match answer
    case Refusal(_, message) => body <= message && (sent <==> body == message)
    case Value(encoded, _) => FramedAs(encoded, body, sent)
  }

  /** One reply: its prefix and its body, or a prefix that broke off and nothing more. */
  ghost predicate OneReply(reply: seq<Act>, answer: Answer, sent: bool) {
    || (|reply| == 2 && reply[0] == Prefixed(EncodeResponse(answer.Prefix())) && reply[1].Wrote?
        && BodySays(answer, reply[1].bytes, sent))
    || (|reply| == 1 && reply[0].Wrote? && !sent && reply[0].bytes < EncodeResponse(answer.Prefix()))
  }

  class CallCtx {
    const headers: Headers
    const tx: ByteSink
    const rx: ByteSource

    ghost predicate Valid()
      reads this, tx
    {
      OpenHalves(tx, rx)
    }

    constructor (headers: Headers, tx: ByteSink, rx: ByteSource)
      requires OpenHalves(tx, rx)
      ensures Valid() && this.headers == headers && this.tx == tx && this.rx == rx
    {
      this.headers, this.tx, this.rx := headers, tx, rx;
    }

    ghost function Now(): Ledger
      reads this, tx, rx, tx.channel
    {
      LedgerOf(tx, rx)
    }

    /** Let a decoder read the request off its body view; it may ask for anything. */
    method DecodeCall(wishes: seq<Wish>) returns (ghost intake: Intake)
      requires Valid()
      modifies rx, tx.channel
      ensures Valid() && Happened(old(Now()), [Consumed(intake.taken)], Now())
      ensures intake.Of(ServerFraming(headers), old(rx.pending))
      ensures rx.steady && Greedy(wishes) ==> intake.KeepsUp(ServerFraming(headers), old(rx.pending), |wishes|)
    {
      intake := TakeBody(rx, ServerFraming(headers), wishes);
      assert tx.written + [] == tx.written;
      HappenedOne(old(Now()), Consumed(intake.taken), Now());
    }

    /** Write a reply prefix, whole or as far as the send half let it go. */
    method WritePrefix(prefix: ResponsePrefix) returns (ok: bool, ghost act: Act)
      requires Valid()
      modifies tx, tx.channel
      ensures Valid() && Happened(old(Now()), [act], Now())
      ensures if ok then act == Prefixed(EncodeResponse(prefix)) else act.Wrote? && act.bytes < EncodeResponse(prefix)
      ensures tx.steady ==> ok
    {
      var written;
      ok, written := WriteResponsePrefix(prefix, Into(tx));
      act := if ok then Prefixed(written) else Wrote(written);
      NoteWritten(old(Now()), act, Now());
    }

    method WriteMessage(ghost status: U16, message: Text) returns (sent: bool, ghost act: Act)
      requires Valid()
      modifies tx, tx.channel
      ensures Valid() && Happened(old(Now()), [act], Now()) && act.Wrote?
      ensures BodySays(Refusal(status, message), act.bytes, sent)
      ensures tx.steady ==> sent
    {
      var written;
      sent, written := WriteBody(message, Into(tx));
      act := Wrote(written);
      NoteWritten(old(Now()), act, Now());
    }

    /** Reply with a status and a message of declared length. */
    method ReplyStatus(status: U16, message: Text) returns (sent: bool, ghost reply: seq<Act>)
      requires Valid()
      modifies tx, tx.channel
      ensures Valid() && Happened(old(Now()), reply, Now())
      ensures OneReply(reply, Refusal(status, message), sent)
      ensures tx.steady ==> sent
    {
      ghost var prefix, body;
      sent, prefix := WritePrefix(StatusPrefix(status, message));
      reply := [prefix];
      if sent {
        ghost var mid := Now();
        sent, body := WriteMessage(status, message);
        HappenedTwice(old(Now()), [prefix], mid, [body], Now());
        reply := [prefix, body];
        assert [prefix] + [body] == reply;
      }
    }

    /** Frame what the encoder puts into the ring before it closes it. */
    method WriteValue(encoded: seq<Byte>, ghost whole: bool) returns (sent: bool, ghost act: Act)
      requires Valid()
      modifies tx, tx.channel
      ensures Valid() && Happened(old(Now()), [act], Now()) && act.Wrote?
      ensures BodySays(Value(encoded, whole), act.bytes, sent)
      ensures tx.steady ==> sent
    {
      ghost var wire;
      sent, wire := SendEncoded(encoded, whole, tx);
      act := Wrote(wire);
      NoteWritten(old(Now()), act, Now());
    }

    /**
     * Reply with a value, encoded through the ring. `encoded` is what the encoder wrote before it
     * closed the ring, `whole` whether it got to the end. The reply is `done` when the encoder got
     * to its end and no write failed.
     */
    method ReplyOk(encoded: seq<Byte>, whole: bool) returns (done: bool, ghost sent: bool, ghost reply: seq<Act>)
      requires Valid()
      modifies tx, tx.channel
      ensures Valid() && Happened(old(Now()), reply, Now())
      ensures OneReply(reply, Value(encoded, whole), sent) && (done <==> sent && whole)
      ensures tx.steady ==> sent
    {
      ghost var prefix, body;
      var ok;
      ok, prefix := WritePrefix(OkPrefix());
      reply := [prefix];
      if ok {
        ghost var mid := Now();
        ok, body := WriteValue(encoded, whole);
        HappenedTwice(old(Now()), [prefix], mid, [body], Now());
        reply := [prefix, body];
        assert [prefix] + [body] == reply;
      }
      sent, done := ok, whole && ok;
    }

    /** Give up the send half, then take what the peer still sends until it closes or fails. */
    method Close() returns (ghost dropped: seq<Byte>, ghost closing: bool)
      requires Valid()
      modifies tx, rx, tx.channel
      ensures tx.closed && Happened(old(Now()), [LetGo, Discarded(dropped)], Now())
      ensures |dropped| % DRAIN_STEP == 0
      ensures closing ==> |rx.pending| == |old(rx.pending)| % DRAIN_STEP
      ensures rx.steady ==> closing
    {
      tx.HalfClose();
      assert tx.written + [] == tx.written && [] + rx.pending == rx.pending;
      HappenedOne(old(Now()), LetGo, Now());
      ghost var mid := Now();
      dropped, closing := DrainToEof(rx);
      HappenedOne(mid, Discarded(dropped), Now());
      HappenedTwice(old(Now()), [LetGo], mid, [Discarded(dropped)], Now());
      assert [LetGo] + [Discarded(dropped)] == [LetGo, Discarded(dropped)];
    }
  }

  /** A channel just accepted: nothing was written, and all of `inbox` is to come. */
  method OpenChannel(inbox: seq<Byte>, steady: bool) returns (tx: ByteSink, rx: ByteSource)
    ensures OpenHalves(tx, rx) && LedgerOf(tx, rx) == Ledger([], inbox, [])
    ensures tx.steady == rx.steady == steady && fresh(tx) && fresh(rx) && fresh(tx.channel)
  {
    var channel := new Channel();
    tx := new ByteSink.On(channel, true, steady);
    rx := new ByteSource.On(channel, inbox, true, steady);
  }

  /** The two halves of one channel, the send half still open. */
  ghost predicate OpenHalves(tx: ByteSink, rx: ByteSource)
    reads tx
  {
    !tx.closed && tx.obeys && rx.obeys && tx.channel == rx.channel
  }

  /** Bytes that were just put out. */
  lemma NoteWritten(a: Ledger, act: Act, b: Ledger)
    requires act.Prefixed? || act.Wrote?
    requires b == Ledger(a.sent + act.bytes, a.pending, a.trace + Outs(act.bytes))
    ensures Happened(a, [act], b)
  {
    assert [] + b.pending == b.pending;
    HappenedOne(a, act, b);
  }

  /**
   * Take what the peer still sends, a step at a time, until a borrow fails. A drain that the closing
   * peer ended, as on a steady half it always is, leaves what does not make up a whole step.
   */
  method DrainToEof(rx: ByteSource) returns (ghost dropped: seq<Byte>, ghost closing: bool)
    requires rx.obeys
    modifies rx, rx.channel
    ensures old(rx.pending) == dropped + rx.pending && |dropped| % DRAIN_STEP == 0
    ensures rx.channel.trace == old(rx.channel.trace) + Ins(dropped)
    ensures closing ==> |rx.pending| == |old(rx.pending)| % DRAIN_STEP
    ensures rx.steady ==> closing
  {
    dropped, closing := [], false;
    var draining := true;
    while draining
      invariant old(rx.pending) == dropped + rx.pending && |dropped| % DRAIN_STEP == 0
      invariant rx.channel.trace == old(rx.channel.trace) + Ins(dropped)
      invariant closing ==> !draining && |rx.pending| < DRAIN_STEP
      invariant rx.steady && !draining ==> closing
      decreases draining, |rx.pending|
    {
      ghost var held := Raw(rx).Held();
      var taken := Take(Raw(rx), Exactly(DRAIN_STEP), DRAIN_STEP);
      TakesFront(held, taken.Bytes(), Raw(rx).Held());
      Associate(dropped, taken.Bytes(), rx.pending);
      InsAppend(dropped, taken.Bytes());
      Associate(old(rx.channel.trace), Ins(dropped), Ins(taken.Bytes()));
      dropped := dropped + taken.Bytes();
      draining := taken.Took?;
      closing := taken.Kept? && taken.tag == Closing;
    }
  }

  /** A whole body on the wire and whatever follows it: `after` has not lost a byte of the latter. */
  predicate StaysInBody(framing: Framing, before: seq<Byte>, after: seq<Byte>) {
    ServerReads(framing, before).Some? ==> TailOf(ServerReads(framing, before).value.1, after)
  }

  /**
   * What a decoder took off the wire, what it was given of the body, whether it was shown the end,
   * and whether a read broke off inside a chunk header.
   */
  datatype Intake = Intake(taken: seq<Byte>, delivered: seq<Byte>, ended: bool, lost: bool) {
    /**
     * Unless a read broke off in a header, the decoder was given a front of the body and nothing behind
     * the body was taken; at the end it had the whole body, and exactly what follows it is left.
     */
    predicate Of(framing: Framing, before: seq<Byte>) {
      && taken <= before && (lost ==> framing.InChunks?)
      && (!lost ==> delivered <= BodyAt(framing, before) && StaysInBody(framing, before, before[|taken|..]))
      && (!lost && ended ==> ServerReads(framing, before) == Some((delivered, before[|taken|..])))
    }

    /** Of a whole body nothing is lost, and each of `turns` reads got a byte unless the end was seen. */
    predicate KeepsUp(framing: Framing, before: seq<Byte>, turns: nat) {
      ServerReads(framing, before).Some? ==> !lost && (ended || |delivered| >= turns)
    }
  }

  /** Reading through a chunk view, as an intake. */
  lemma ChunkedIntake(before: seq<Byte>, intake: Intake, place: ChunkedReader.Cursor)
    requires intake.taken <= before && place.wire == before[|intake.taken|..] && place.ended == intake.ended
    requires !intake.lost ==> Deframe(before) == place.Ahead().After(intake.delivered)
    requires !intake.lost && Deframe(before).Complete? ==> TailOf(Deframe(before).rest, place.wire)
    ensures intake.Of(InChunks, before)
  {
    assert intake.delivered + [] == intake.delivered;
  }

  method TakeChunked(rx: ByteSource, wishes: seq<Wish>) returns (ghost intake: Intake)
    requires rx.obeys
    modifies rx, rx.channel
    ensures old(rx.pending) == intake.taken + rx.pending
    ensures rx.channel.trace == old(rx.channel.trace) + Ins(intake.taken)
    ensures intake.Of(InChunks, old(rx.pending))
    ensures rx.steady && Greedy(wishes) ==> intake.KeepsUp(InChunks, old(rx.pending), |wishes|)
  {
    ghost var before, start := rx.pending, Raw(rx).Stands();
    ghost var ended, delivered, place, lost := ReadChunked(Raw(rx), wishes);
    ghost var taken := AdvancedFront(start, Raw(rx).Stands());
    assert Raw(rx).Pending() == rx.pending;
    intake := Intake(taken, delivered, ended, lost);
    ChunkedIntake(before, intake, place);
  }

  method TakeSized(rx: ByteSource, size: nat, wishes: seq<Wish>) returns (ghost intake: Intake)
    requires rx.obeys
    modifies rx, rx.channel
    ensures old(rx.pending) == intake.taken + rx.pending
    ensures rx.channel.trace == old(rx.channel.trace) + Ins(intake.taken)
    ensures intake.Of(ExactlyBytes(size), old(rx.pending))
    ensures rx.steady && Greedy(wishes) ==> intake.KeepsUp(ExactlyBytes(size), old(rx.pending), |wishes|)
  {
    ghost var before, start := rx.pending, Raw(rx).Stands();
    var left;
    ghost var delivered;
    left, delivered := ReadSized(Raw(rx), size, wishes);
    ghost var taken := AdvancedFront(start, Raw(rx).Stands());
    assert taken == before[..|before| - |rx.pending|] == delivered;
    intake := Intake(delivered, delivered, left == 0, false);
    SizedIntake(before, size, intake);
  }

  /** Reading through a quota, as an intake. */
  lemma SizedIntake(before: seq<Byte>, size: nat, intake: Intake)
    requires intake.delivered == intake.taken <= before && |intake.taken| <= size && !intake.lost
    requires intake.ended <==> |intake.taken| == size
    ensures intake.Of(ExactlyBytes(size), before)
  {
    assert before[..|intake.taken|] == intake.taken;
  }

  /** Let a decoder borrow from the body view that the server chose: it never reads behind the body. */
  method TakeBody(rx: ByteSource, framing: Framing, wishes: seq<Wish>) returns (ghost intake: Intake)
    requires rx.obeys
    modifies rx, rx.channel
    ensures old(rx.pending) == intake.taken + rx.pending
    ensures rx.channel.trace == old(rx.channel.trace) + Ins(intake.taken)
    ensures intake.Of(framing, old(rx.pending))
    ensures rx.steady && Greedy(wishes) ==> intake.KeepsUp(framing, old(rx.pending), |wishes|)
  {
    match framing
    case InChunks => intake := TakeChunked(rx, wishes);
    case ExactlyBytes(size) => intake := TakeSized(rx, size, wishes);
  }

  /** Frame what an encoder put into a ring and closed it. */
  method SendEncoded(encoded: seq<Byte>, ghost whole: bool, tx: ByteSink) returns (sent: bool, ghost wire: seq<Byte>)
    requires !tx.closed && tx.obeys
    modifies tx, tx.channel
    ensures !tx.closed && tx.written == old(tx.written) + wire
    ensures tx.channel.trace == old(tx.channel.trace) + Outs(wire)
    ensures BodySays(Value(encoded, whole), wire, sent)
    ensures tx.steady ==> sent
  {
    var ring := new ByteSource(encoded, true, tx.steady);
    var res, acc, all := ChunkedEncode.WriteAll(Raw(ring), Into(tx));
    ChunkedEncode.AccountReadsBack(acc, all, res.Ok?);
    sent, wire := res.Ok?, all;
    assert sent ==> acc.Left() + [] == acc.Left();
  }

  /** The acts of one call: what the decoder took, the reply, the close, and whether the peer ended it. */
  datatype Trace = Trace(request: seq<Act>, reply: seq<Act>, dropped: seq<Byte>, closing: bool) {
    function Acts(): seq<Act> {
      request + reply + [LetGo, Discarded(dropped)]
    }

    ghost predicate Sound(dispatched: bool, answer: Answer, sent: bool) {
      && (if dispatched then |request| == 1 && request[0].Consumed? else request == [])
      && OneReply(reply, answer, sent) && |dropped| % DRAIN_STEP == 0
    }
  }

  /**
   * How the code behind a service conducts itself on one call: its decoder rejects the request, or
   * the service returns a value, encoded as far as its encoder goes, or raises an error.
   */
  datatype Conduct =
    | Rejects(status: U16, message: Text)
    | Returns(encoded: seq<Byte>, whole: bool)
    | Raises(status: U16, message: Text)

  /** A rejected request and a raised error are answered with their status and message, a value with itself. */
  predicate Answers(conduct: Conduct, answer: Answer) {
    match conduct
    case Rejects(status, message) => answer == Refusal(status, message)
    case Returns(encoded, whole) => answer == Value(encoded, whole)
    case Raises(status, message) => answer == Refusal(status, message)
  }

  /** The dispatch emitted for a service: decode, run, reply. */
  method DispatchCall(ctx: CallCtx, wishes: seq<Wish>, conduct: Conduct)
    returns (done: bool, ghost answer: Answer, ghost sent: bool, ghost intake: Intake, ghost reply: seq<Act>)
    requires ctx.Valid()
    modifies ctx.tx, ctx.rx, ctx.tx.channel
    ensures ctx.Valid() && Happened(old(ctx.Now()), [Consumed(intake.taken)] + reply, ctx.Now())
    ensures OneReply(reply, answer, sent) && (done <==> sent && answer.Finished()) && Answers(conduct, answer)
    ensures intake.Of(ServerFraming(ctx.headers), old(ctx.rx.pending))
    ensures ctx.rx.steady && Greedy(wishes) ==>
      intake.KeepsUp(ServerFraming(ctx.headers), old(ctx.rx.pending), |wishes|)
    ensures ctx.tx.steady ==> sent
  {
    intake := ctx.DecodeCall(wishes);
    ghost var mid := ctx.Now();
    match conduct {
      case Rejects(status, message) =>
        answer := Refusal(status, message);
        done, reply := ctx.ReplyStatus(status, message);
        sent := done;
      case Returns(encoded, whole) =>
        answer := Value(encoded, whole);
        done, sent, reply := ctx.ReplyOk(encoded, whole);
      case Raises(status, message) =>
        answer := Refusal(status, message);
        done, reply := ctx.ReplyStatus(status, message);
        sent := done;
    }
    HappenedTwice(old(ctx.Now()), [Consumed(intake.taken)], mid, reply, ctx.Now());
  }

  /** Answer with a refusal and close. */
  method Reject(ctx: CallCtx, status: U16, message: Text) returns (sent: bool, ghost trace: Trace)
    requires ctx.Valid()
    modifies ctx.tx, ctx.rx, ctx.tx.channel
    ensures ctx.tx.closed && Happened(old(ctx.Now()), trace.Acts(), ctx.Now())
    ensures trace.Sound(false, Refusal(status, message), sent)
    ensures trace.closing ==> |ctx.rx.pending| < DRAIN_STEP
    ensures (ctx.tx.steady ==> sent) && (ctx.rx.steady ==> trace.closing)
  {
    ghost var reply, dropped, closing;
    ghost var start := ctx.Now();
    sent, reply := ctx.ReplyStatus(status, message);
    ghost var mid := ctx.Now();
    dropped, closing := ctx.Close();
    trace := ClosedTrace(start, [], reply, mid, dropped, closing, ctx.Now());
  }

  lemma ClosedTrace(a: Ledger, request: seq<Act>, reply: seq<Act>, b: Ledger, dropped: seq<Byte>, closing: bool,
                    c: Ledger)
    returns (trace: Trace)
    requires Happened(a, request + reply, b) || (request == [] && Happened(a, reply, b))
    requires Happened(b, [LetGo, Discarded(dropped)], c)
    ensures trace == Trace(request, reply, dropped, closing) && Happened(a, trace.Acts(), c)
  {
    trace := Trace(request, reply, dropped, closing);
    assert [] + reply == reply;
    HappenedTwice(a, request + reply, b, [LetGo, Discarded(dropped)], c);
  }

  /** Dispatch a call and close, whatever came of it. */
  method Serve(ctx: CallCtx, wishes: seq<Wish>, conduct: Conduct)
    returns (done: bool, ghost answer: Answer, ghost sent: bool, ghost trace: Trace, ghost intake: Intake)
    requires ctx.Valid()
    modifies ctx.tx, ctx.rx, ctx.tx.channel
    ensures ctx.tx.closed && Happened(old(ctx.Now()), trace.Acts(), ctx.Now())
    ensures trace.Sound(true, answer, sent) && (done <==> sent && answer.Finished()) && Answers(conduct, answer)
    ensures trace.request == [Consumed(intake.taken)]
    ensures intake.Of(ServerFraming(ctx.headers), old(ctx.rx.pending))
    ensures trace.closing ==> |ctx.rx.pending| < DRAIN_STEP
    ensures ctx.rx.steady && Greedy(wishes) ==>
      intake.KeepsUp(ServerFraming(ctx.headers), old(ctx.rx.pending), |wishes|)
    ensures (ctx.tx.steady ==> sent) && (ctx.rx.steady ==> trace.closing)
  {
    ghost var reply, dropped, closing;
    ghost var start := ctx.Now();
    done, answer, sent, intake, reply := DispatchCall(ctx, wishes, conduct);
    ghost var mid := ctx.Now();
    dropped, closing := ctx.Close();
    trace := ClosedTrace(start, [Consumed(intake.taken)], reply, mid, dropped, closing, ctx.Now());
  }

  /** The service a router that serves `interface` runs for a location. */
  function Served<S>(interface: string, services: RouteValues<S>, location: string): Routing<S> {
    match StripInterfacePrefix(interface, location)
    case None => NotFound
    case Some(rest) => RouteInside(services, rest)
  }

  /** The service a request runs inside its router, if any: calls only. */
  function Chosen<S>(access: AccessMethod, interface: string, services: RouteValues<S>, location: string): Option<S> {
    match Served(interface, services, location)
    case Service(service) => if access.Call? then Some(service) else None
    case _ => None
  }

  /** A location as the routers see it: one character for each code unit. */
  function Chars(text: seq<Byte>): string {
    seq(|text|, i requires 0 <= i < |text| => text[i] as char)
  }

  /** A string of code units. */
  predicate IsUnits(s: string) {
    forall i :: 0 <= i < |s| ==> s[i] as int < 256
  }

  /** The code units of a string as a location carries them. */
  function Units(s: string): (units: seq<Byte>)
    requires IsUnits(s)
    ensures |units| == |s| && forall i :: 0 <= i < |s| ==> units[i] == s[i] as int
  {
    seq(|s|, i requires 0 <= i < |s| => s[i] as int)
  }

  /** A location is routed as the string the client composed, to the character. */
  lemma CharsOfUnits(s: string)
    requires IsUnits(s)
    ensures Chars(Units(s)) == s
  {
    assert forall i :: 0 <= i < |s| ==> Chars(Units(s))[i] == s[i];
  }

  /** Find the service for a request: its place in the list, or `None` for a refusal. */
  method Choose<S>(access: AccessMethod, interface: string, services: RouteValues<S>, location: string)
    returns (ran: Option<S>)
    ensures ran == Chosen(access, interface, services, location)
  {
    if !access.Call? {
      return None;
    }
    var rest := StripInterfacePrefix(interface, location);
    if rest.None? {
      return None;
    }
    var best := MatchRoute(services, rest.value);
    if best.None? {
      return None;
    }
    MatchedDispatchRuns(services, rest.value);
    ran := Some(DispatchAt(services, best.value.0).handler);
  }

  /**
   * Handle one request to its end. Whatever fails on the way, there is one reply or the front of
   * one, then one half-close, then the drain.
   */
  method Handle<S>(access: AccessMethod, interface: string, services: RouteValues<S>, location: Text,
                   refusal: Text, headers: Headers, tx: ByteSink, rx: ByteSource, wishes: seq<Wish>, conduct: Conduct)
    returns (done: bool, ran: Option<S>, ghost answer: Answer, ghost sent: bool, ghost trace: Trace,
             ghost intake: Intake)
    requires OpenHalves(tx, rx)
    modifies tx, rx, tx.channel
    ensures tx.closed && Happened(old(LedgerOf(tx, rx)), trace.Acts(), LedgerOf(tx, rx))
    ensures trace.Sound(ran.Some?, answer, sent) && (done <==> sent && answer.Finished())
    ensures ran == Chosen(access, interface, services, Chars(location))
    ensures !access.Call? ==> answer == Refusal(STATUS_METHOD_NOT_ALLOWED, refusal)
    ensures access.Call? && ran.None? ==> answer == Refusal(STATUS_NOT_FOUND, location)
    ensures ran.Some? ==>
      && Answers(conduct, answer) && trace.request == [Consumed(intake.taken)]
      && intake.Of(ServerFraming(headers), old(rx.pending))
    ensures trace.closing ==> |rx.pending| < DRAIN_STEP
    ensures rx.steady && Greedy(wishes) && ran.Some? ==>
      intake.KeepsUp(ServerFraming(headers), old(rx.pending), |wishes|)
    ensures (tx.steady ==> sent) && (rx.steady ==> trace.closing)
  {
    ran := Choose(access, interface, services, Chars(location));
    var ctx := new CallCtx(headers, tx, rx);
    if ran.None? {
      var status, message := STATUS_METHOD_NOT_ALLOWED, refusal;
      if access.Call? {
        status, message := STATUS_NOT_FOUND, location;
      }
      done, trace := Reject(ctx, status, message);
      answer, sent, intake := Refusal(status, message), done, *;
    } else {
      done, answer, sent, trace, intake := Serve(ctx, wishes, conduct);
    }
  }

  function Prefixes(acts: seq<Act>): nat {
    if acts == [] then 0 else Prefixes(acts[..|acts| - 1]) + if acts[|acts| - 1].Prefixed? then 1 else 0
  }

  lemma {:induction false} PrefixesAppend(a: seq<Act>, b: seq<Act>)
    ensures Prefixes(a + b) == Prefixes(a) + Prefixes(b)
  {
    if b == [] {
      assert a + b == a;
    } else {
      PrefixesAppend(a, b[..|b| - 1]);
      assert (a + b)[..|a + b| - 1] == a + b[..|b| - 1];
    }
  }

  lemma {:induction false} NoPrefixes(acts: seq<Act>)
    requires forall i :: 0 <= i < |acts| ==> !acts[i].Prefixed?
    ensures Prefixes(acts) == 0
  {
    if acts != [] {
      NoPrefixes(acts[..|acts| - 1]);
    }
  }

  lemma PrefixesInReply(request: seq<Act>, reply: seq<Act>, close: seq<Act>)
    requires |reply| > 0 && forall i :: 0 < i < |reply| ==> !reply[i].Prefixed?
    requires forall i :: 0 <= i < |request| ==> !request[i].Prefixed?
    requires forall i :: 0 <= i < |close| ==> !close[i].Prefixed?
    ensures Prefixes(request + reply + close) == if reply[0].Prefixed? then 1 else 0
  {
    PrefixesAppend(request + reply, close);
    PrefixesAppend(request, reply);
    assert reply == [reply[0]] + reply[1..] && [reply[0]][..0] == [];
    PrefixesAppend([reply[0]], reply[1..]);
    NoPrefixes(request);
    NoPrefixes(reply[1..]);
    NoPrefixes(close);
  }

  /** A reply has a prefix act exactly when it begins with the whole of its prefix. */
  lemma ReplyBegins(reply: seq<Act>, answer: Answer, sent: bool)
    requires OneReply(reply, answer, sent)
    ensures reply[0].Prefixed? <==> EncodeResponse(answer.Prefix()) <= SentBy(reply)
    ensures sent ==> reply[0].Prefixed?
  {
    ReplyWire(reply, answer, sent);
  }

  /**
   * At most one reply prefix is written: one when the reply's bytes begin with the whole of it, and
   * that is always so when no write failed.
   */
  lemma OnePrefix(trace: Trace, dispatched: bool, answer: Answer, sent: bool)
    requires trace.Sound(dispatched, answer, sent)
    ensures Prefixes(trace.Acts()) == if EncodeResponse(answer.Prefix()) <= SentBy(trace.Acts()) then 1 else 0
    ensures sent ==> Prefixes(trace.Acts()) == 1
  {
    PrefixesInReply(trace.request, trace.reply, [LetGo, Discarded(trace.dropped)]);
    TraceSends(trace, dispatched, answer, sent);
    ReplyBegins(trace.reply, answer, sent);
  }

  /** What a reply puts on the wire. */
  lemma ReplyWire(reply: seq<Act>, answer: Answer, sent: bool)
    requires OneReply(reply, answer, sent)
    ensures SentBy(reply) ==
      if |reply| == 2 then EncodeResponse(answer.Prefix()) + reply[1].bytes else reply[0].bytes
  {
    if |reply| == 2 {
      TwoActs(reply);
    } else {
      assert reply == [reply[0]];
      OneAct(reply[0]);
    }
  }

  lemma TwoActs(acts: seq<Act>)
    requires |acts| == 2
    ensures EffectOf(acts) == acts[0].Effect().Then(acts[1].Effect())
  {
    assert acts[1..] == [acts[1]];
    OneAct(acts[1]);
  }

  lemma TransfersJoin(a: seq<Byte>, b: seq<Byte>)
    ensures Read(a).Then(Read(b)) == Read(a + b) && Written(a).Then(Written(b)) == Written(a + b)
  {
    InsAppend(a, b);
    OutsAppend(a, b);
  }

  lemma {:induction false} WritesOnly(acts: seq<Act>)
    requires forall i :: 0 <= i < |acts| ==> acts[i].Prefixed? || acts[i].Wrote?
    ensures EffectOf(acts) == Written(SentBy(acts))
  {
    if acts != [] {
      WritesOnly(acts[1..]);
      TransfersJoin(acts[0].bytes, SentBy(acts[1..]));
    }
  }

  lemma {:induction false} ReadsOnly(acts: seq<Act>)
    requires forall i :: 0 <= i < |acts| ==> acts[i].Consumed? || acts[i].Discarded?
    ensures EffectOf(acts) == Read(ReceivedBy(acts))
  {
    if acts != [] {
      ReadsOnly(acts[1..]);
      TransfersJoin(acts[0].bytes, ReceivedBy(acts[1..]));
    }
  }

  /** The effect of a call: its request is read, its reply written, then it lets go and drains. */
  function CallEffect(taken: seq<Byte>, put: seq<Byte>, dropped: seq<Byte>): Effect {
    Did(put, taken + dropped, Ins(taken) + Outs(put) + [HalfClosed] + Ins(dropped))
  }

  lemma CallEffectIs(taken: seq<Byte>, put: seq<Byte>, dropped: seq<Byte>)
    ensures Read(taken).Then(Written(put)).Then(Did([], [], [HalfClosed]).Then(Read(dropped))) ==
      CallEffect(taken, put, dropped)
  {
    assert [] + put + [] == put && taken + [] + dropped == taken + dropped;
    Associate(Ins(taken) + Outs(put), [HalfClosed], Ins(dropped));
  }

  /**
   * A call whose drain the closing peer ended has read everything the peer sent exactly when what the
   * request left of it is a whole number of steps.
   */
  lemma ReadToTheEnd(before: Ledger, trace: Trace, dispatched: bool, answer: Answer, sent: bool, after: Ledger)
    requires trace.Sound(dispatched, answer, sent) && Happened(before, trace.Acts(), after)
    requires trace.closing && |after.pending| < DRAIN_STEP
    ensures after.pending == [] <==> (|before.pending| - |ReceivedBy(trace.request)|) % 4096 == 0
  {
    TraceSends(trace, dispatched, answer, sent);
    WholeSteps(|before.pending| - |ReceivedBy(trace.request)|, |trace.dropped|, |after.pending|);
  }

  lemma WholeSteps(all: int, dropped: nat, left: nat)
    requires all == dropped + left && dropped % DRAIN_STEP == 0 && left < DRAIN_STEP
    ensures left == 0 <==> all % 4096 == 0
  {
  }

  /** A call sends its reply and nothing else. */
  lemma TraceSends(trace: Trace, dispatched: bool, answer: Answer, sent: bool)
    requires trace.Sound(dispatched, answer, sent)
    ensures EffectOf(trace.Acts()) == CallEffect(ReceivedBy(trace.request), SentBy(trace.reply), trace.dropped)
  {
    PartsSend(trace.request, trace.reply, trace.dropped);
  }

  lemma PartsSend(request: seq<Act>, reply: seq<Act>, dropped: seq<Byte>)
    requires forall i :: 0 <= i < |request| ==> request[i].Consumed?
    requires forall i :: 0 <= i < |reply| ==> reply[i].Prefixed? || reply[i].Wrote?
    ensures EffectOf(request + reply + [LetGo, Discarded(dropped)]) ==
      CallEffect(ReceivedBy(request), SentBy(reply), dropped)
  {
    ReadsOnly(request);
    WritesOnly(reply);
    TwoActs([LetGo, Discarded(dropped)]);
    EffectAppend(request, reply);
    EffectAppend(request + reply, [LetGo, Discarded(dropped)]);
    CallEffectIs(ReceivedBy(request), SentBy(reply), dropped);
  }

  lemma {:induction false} InsAreIn(bytes: seq<Byte>)
    ensures forall i :: 0 <= i < |Ins(bytes)| ==> Ins(bytes)[i].In?
  {
    if bytes != [] {
      InsAreIn(bytes[1..]);
    }
  }

  lemma {:induction false} OutsAreOut(bytes: seq<Byte>)
    ensures forall i :: 0 <= i < |Outs(bytes)| ==> Outs(bytes)[i].Out?
  {
    if bytes != [] {
      OutsAreOut(bytes[1..]);
    }
  }

  /**
   * The log of a call: one half-close; before it the request is taken in, then the reply put out,
   * never a byte in after a byte out; after it bytes are only taken in.
   */
  ghost predicate ClosedInOrder(log: seq<Event>) {
    exists k :: 0 <= k < |log| && log[k].HalfClosed? && AllBefore(log, k) && forall i :: k < i < |log| ==> log[i].In?
  }

  /** Before place `k` bytes are taken in, then put out. */
  ghost predicate AllBefore(log: seq<Event>, k: nat)
    requires k <= |log|
  {
    && (forall i :: 0 <= i < k ==> !log[i].HalfClosed?)
    && forall i, j :: 0 <= i < j < k && log[i].Out? ==> log[j].Out?
  }

  lemma InsThenOuts(a: seq<Byte>, b: seq<Byte>, after: seq<Event>)
    ensures AllBefore(Ins(a) + Outs(b) + after, |Ins(a)| + |Outs(b)|)
  {
    InsAreIn(a);
    OutsAreOut(b);
    var log := Ins(a) + Outs(b) + after;
    forall i | 0 <= i < |Ins(a)| + |Outs(b)|
      ensures !log[i].HalfClosed? && (log[i].Out? <==> |Ins(a)| <= i)
    {
      assert log[i] == if i < |Ins(a)| then Ins(a)[i] else Outs(b)[i - |Ins(a)|];
    }
  }

  lemma ShapedInOrder(a: seq<Byte>, b: seq<Byte>, c: seq<Byte>)
    ensures ClosedInOrder(Ins(a) + Outs(b) + [HalfClosed] + Ins(c))
  {
    InsAreIn(c);
    var front, after := Ins(a) + Outs(b), [HalfClosed] + Ins(c);
    InsThenOuts(a, b, after);
    var log, k := front + [HalfClosed] + Ins(c), |front|;
    assert log == front + after;
    assert log[k] == HalfClosed;
    assert forall i :: k < i < |log| ==> log[i] == Ins(c)[i - k - 1];
  }

  /** Every call that was handled leaves such a log, whatever failed on the way. */
  lemma CloseInOrder(trace: Trace, dispatched: bool, answer: Answer, sent: bool)
    requires trace.Sound(dispatched, answer, sent)
    ensures ClosedInOrder(EventsOf(trace.Acts()))
  {
    TraceSends(trace, dispatched, answer, sent);
    ShapedInOrder(ReceivedBy(trace.request), SentBy(trace.reply), trace.dropped);
  }

  /** What a caller reads when nothing follows a reply: its status and its body, if both are whole. */
  function CallerReads(wire: seq<Byte>): Option<(U16, seq<Byte>)> {
    match DecodeResponse(wire)
    case Err(_) => None
    case Ok((prefix, rest)) =>
      match PlanOf(BodyInfo(prefix.headers), Call)
      case Err(_) => None
      case Ok(plan) => WithStatus(prefix.status, ReadWhole(plan, rest))
  }

  function WithStatus(status: U16, read: Option<(seq<Byte>, seq<Byte>)>): Option<(U16, seq<Byte>)> {
    if read.Some? then Some((status, read.value.0)) else None
  }

  /**
   * A reply that was written to its end, followed by anything, reads back at the caller: the
   * status, and the message or the encoded value to the last byte.
   */
  lemma ReplyReachesCaller(reply: seq<Act>, answer: Answer, tail: seq<Byte>)
    requires OneReply(reply, answer, true)
    ensures var decoded := DecodeResponse(SentBy(reply) + tail);
      && decoded.Ok? && decoded.value.0.status == answer.Prefix().status
      && var plan := PlanOf(BodyInfo(decoded.value.0.headers), Call);
      && plan.Ok?
      && ReadWhole(plan.value, decoded.value.1) == Some((answer.Bytes(), tail))
  {
    ReplyWire(reply, answer, true);
    match answer
    case Refusal(status, message) => StatusReplyReadsBack(status, message, tail);
    case Value(encoded, _) => OkReplyReadsBack(reply[1].bytes, encoded, tail);
  }

  /** A message that broke off is never whole. */
  lemma BrokenMessage(status: U16, message: Text, seen: seq<Byte>)
    requires seen < message
    ensures CallerReads(EncodeResponse(StatusPrefix(status, message)) + seen) == None
  {
    ResponseRoundTrip(StatusPrefix(status, message), seen);
    StatusPrefixDeclares(status, message);
  }

  /** Nor is a value whose body does not deframe to its end. */
  lemma BrokenValue(seen: seq<Byte>)
    requires !Deframe(seen).Complete?
    ensures CallerReads(EncodeResponse(OkPrefix()) + seen) == None
  {
    ResponseRoundTrip(OkPrefix(), seen);
    ChunkedHeadersSayChunked();
  }

  /** A reply that broke off inside its body decodes to its prefix, and its body is never whole. */
  lemma BrokenBodyIsNotRead(reply: seq<Act>, answer: Answer)
    requires OneReply(reply, answer, false) && |reply| == 2
    ensures CallerReads(SentBy(reply)) == None
  {
    ReplyWire(reply, answer, false);
    match answer
    case Refusal(status, message) => BrokenMessage(status, message, reply[1].bytes);
    case Value(_, _) => BrokenValue(reply[1].bytes);
  }

  /** The caller reads a whole reply exactly when no write of it failed, whatever the encoder came to. */
  lemma CallerReadsIfSent(reply: seq<Act>, answer: Answer, sent: bool)
    requires OneReply(reply, answer, sent)
    ensures CallerReads(SentBy(reply)) == if sent then Some((answer.Prefix().status, answer.Bytes())) else None
  {
    if sent {
      ReplyReachesCaller(reply, answer, []);
      assert SentBy(reply) + [] == SentBy(reply);
    } else if |reply| == 2 {
      BrokenBodyIsNotRead(reply, answer);
    } else {
      ReplyWire(reply, answer, sent);
      TornPrefixFails(answer.Prefix(), reply[0].bytes);
    }
  }

  /** The caller takes a value that its encoder did not finish for a whole one, with status 200. */
  predicate Misled(answer: Answer, wire: seq<Byte>) {
    answer.Value? && !answer.whole && CallerReads(wire) == Some((STATUS_OK, answer.encoded))
  }

  /** That comes about exactly when the encoder failed and no write did. */
  lemma CallerIsMisled(reply: seq<Act>, encoded: seq<Byte>, whole: bool, sent: bool)
    requires OneReply(reply, Value(encoded, whole), sent)
    ensures Misled(Value(encoded, whole), SentBy(reply)) <==> sent && !whole
  {
    CallerReadsIfSent(reply, Value(encoded, whole), sent);
  }

  function Pieces(bytes: seq<Byte>): (pieces: seq<seq<Byte>>)
    ensures AllSized(pieces) && Concat(pieces) == bytes
  {
    if bytes == [] then [] else [bytes[..1]] + Pieces(bytes[1..])
  }

  /** A reply to a value that no write failed, whatever the encoder came to. */
  lemma SentReply(encoded: seq<Byte>, whole: bool) returns (wire: seq<Byte>, reply: seq<Act>)
    ensures reply == [Prefixed(EncodeResponse(OkPrefix())), Wrote(wire)] && Deframe(wire) == Complete(encoded, [])
    ensures OneReply(reply, Value(encoded, whole), true)
  {
    wire := Frames(Pieces(encoded)) + TERMINATOR;
    BodyRoundTrip(Pieces(encoded), []);
    assert wire + [] == wire;
    reply := [Prefixed(EncodeResponse(OkPrefix())), Wrote(wire)];
  }

  /** And it can come about wherever the encoder stops. */
  lemma AnyCutCanMislead(encoded: seq<Byte>)
    ensures exists reply :: OneReply(reply, Value(encoded, false), true) && Misled(Value(encoded, false), SentBy(reply))
  {
    var _, reply := SentReply(encoded, false);
    CallerIsMisled(reply, encoded, false, true);
  }
}
