/** The two ends of one unary call, put together: what the caller wrote is what the server reads, and back. */
module EndToEnd {
  import opened Wrappers
  import opened Octets
  import opened Channels
  import opened Readers
  import opened Writers
  import ChunkFormat
  import ChunkedReader
  import opened MessagePack
  import opened Prefix
  import opened BodyFraming
  import opened Message
  import opened Reply
  import opened ListRouter
  import opened Locations
  import opened RpcCall
  import opened Server
  import opened UnaryClient
  import opened MptpSession
  import Protocol = Session

  /** A reply whose prefix broke off is no remote error. */
  lemma TornReplyIsNotReceived(reply: seq<Act>, answer: Answer, status: U16, body: seq<Byte>, rest: seq<Byte>)
    requires OneReply(reply, answer, false) && |reply| == 1
    ensures !RemoteError(SentBy(reply), status, body, rest)
  {
    ReplyWire(reply, answer, false);
    TornPrefixFails(answer.Prefix(), reply[0].bytes);
  }

  /** A remote error is a refusal that was sent to its end. */
  lemma RemoteErrorWasSent(reply: seq<Act>, answer: Answer, sent: bool, status: U16, body: seq<Byte>, rest: seq<Byte>)
    requires OneReply(reply, answer, sent) && |reply| == 2 && RemoteError(SentBy(reply), status, body, rest)
    ensures sent && answer.Refusal? && answer.status == status && answer.message == body
  {
    var seen := reply[1].bytes;
    ReplyWire(reply, answer, sent);
    ResponseRoundTrip(answer.Prefix(), seen);
    assert answer.Refusal?;
    StatusPrefixDeclares(answer.status, answer.message);
    assert body == seen[..|body|] && seen <= answer.message;
  }

  /** What a caller reads of a message is a front of it, and at its end all of it. */
  lemma MessageIsRead(reading: Reading, status: U16, message: Text, seen: seq<Byte>)
    requires reading.Sound(EncodeResponse(StatusPrefix(status, message)) + seen) && reading.outcome.Done?
    requires seen <= message
    ensures reading.delivered <= message && (reading.AtItsEnd() ==> reading.delivered == message == seen)
  {
    Protocol.PrefixThenBody(reading.before, reading.between, StatusPrefix(status, message), seen);
    StatusPrefixDeclares(status, message);
    assert reading.delivered == seen[..|reading.delivered|];
  }

  /** What a caller reads of a value is a front of it, and at its end all of it. */
  lemma ValueIsRead(reading: Reading, encoded: seq<Byte>, whole: bool, seen: seq<Byte>, sent: bool)
    requires reading.Sound(EncodeResponse(OkPrefix()) + seen) && reading.outcome.Done?
    requires BodySays(Value(encoded, whole), seen, sent)
    ensures reading.delivered <= encoded && (reading.AtItsEnd() ==> sent && reading.delivered == encoded)
  {
    Protocol.PrefixThenBody(reading.before, reading.between, OkPrefix(), seen);
    ChunkedHeadersSayChunked();
    var ahead := reading.place.Ahead();
    assert ChunkFormat.Deframe(seen) == ahead.After(reading.delivered);
    assert ChunkFormat.Deframe(seen).payload == reading.delivered + ahead.payload;
  }

  /** What was read of an answer: a front of its bytes, and at the end all of them, which were sent whole. */
  predicate Tells(reading: Reading, answer: Answer, sent: bool) {
    && answer.Prefix().status == STATUS_OK
    && (reading.outcome.Done? ==> reading.delivered <= answer.Bytes())
    && (reading.AtItsEnd() ==> sent && reading.delivered == answer.Bytes())
  }

  /** What the caller is told of an answer, given all that the server wrote. */
  predicate Told(answer: Answer, sent: bool, accepts: bool, res: Result<(), CallError>, reading: Reading) {
    match res
    case Ok(_) => accepts && Tells(reading, answer, sent)
    case Err(Decode) => !accepts && Tells(reading, answer, sent)
    case Err(Remote(status, body)) => sent && answer.Refusal? && answer.status == status && answer.message == body
    case Err(_) => true
  }

  /** A value read off what was written of a reply tells a front of its answer, and at its end all of it. */
  lemma ValueTells(reply: seq<Act>, answer: Answer, sent: bool, reading: Reading, rest: seq<Byte>)
    requires OneReply(reply, answer, sent) && ReadsValue(SentBy(reply), reading, rest)
    ensures Tells(reading, answer, sent)
  {
    ReplyWire(reply, answer, sent);
    if |reply| == 1 {
      TornPrefixFails(answer.Prefix(), reply[0].bytes);
    } else {
      var seen := reply[1].bytes;
      ResponseRoundTrip(answer.Prefix(), seen);
      if reading.outcome.Done? {
        match answer
        case Refusal(status, message) => MessageIsRead(reading, status, message, seen);
        case Value(encoded, whole) => ValueIsRead(reading, encoded, whole, seen, sent);
      }
    }
  }

  /** A value is read off an answer with status 200 and is its bytes; a remote error is a refusal, verbatim. */
  lemma AnswerIsTold(reply: seq<Act>, answer: Answer, sent: bool, accepts: bool, res: Result<(), CallError>,
                     reading: Reading, rest: seq<Byte>)
    requires OneReply(reply, answer, sent) && Received(SentBy(reply), accepts, res, reading, rest)
    ensures Told(answer, sent, accepts, res, reading)
  {
    if res.Ok? || res.error.Decode? {
      ValueTells(reply, answer, sent, reading, rest);
    } else if res.error.Remote? {
      if |reply| == 1 {
        TornReplyIsNotReceived(reply, answer, res.error.status, res.error.body, rest);
      } else {
        RemoteErrorWasSent(reply, answer, sent, res.error.status, res.error.body, rest);
      }
    }
  }

  /** Both ends of a channel: what the caller put out and was told, and what the server did. */
  datatype Exchange<S> = Exchange(
    out: seq<Byte>, sent: bool, accepts: bool, res: Result<(), CallError>, reading: Reading, rest: seq<Byte>,
    conduct: Conduct, outcome: Server.Outcome<S>, before: Ledger, after: Ledger)
  {
    /** Each end did what it does, and reads what the other one wrote. */
    ghost predicate Sound(routes: RouteValues<ListRouter.Interface<S>>, refusal: Text, location: Text,
                          encoded: seq<Byte>, whole: bool)
    {
      && before.sent == [] && before.pending == EncodeRequest(CallPrefix(location)) + out
      && Serves(routes, refusal, conduct, before, outcome, after)
      && Calls(encoded, whole, accepts, out, sent, after.sent, res, reading, rest)
    }

    /** The caller was told a value or a remote error. */
    predicate Answered() {
      res.Ok? || res.error.Remote? || res.error.Decode?
    }
  }

  /** Where nothing was written nobody is told anything. */
  lemma AnsweredWasHandled<S>(x: Exchange<S>, routes: RouteValues<ListRouter.Interface<S>>, refusal: Text,
                              location: Text, encoded: seq<Byte>, whole: bool)
    requires x.Sound(routes, refusal, location, encoded, whole) && x.Answered()
    ensures x.outcome.served.Handled?
  {
    assert DecodeResponse([]).Err?;
  }

  /** What a handler did is all that the server wrote. */
  lemma HandledSends<S>(x: Exchange<S>, routes: RouteValues<ListRouter.Interface<S>>, refusal: Text)
    requires x.before.sent == [] && x.outcome.served.Handled?
    requires Serves(routes, refusal, x.conduct, x.before, x.outcome, x.after)
    ensures x.after.sent == SentBy(x.outcome.trace.reply)
  {
    var o := x.outcome;
    TraceSends(o.trace, o.served.ran.Some?, o.answer, o.sent);
  }

  /** What a server reads when nothing follows a request: its prefix and its body, if both are whole. */
  function ServerGets(inbox: seq<Byte>): Option<(RequestPrefix, seq<Byte>)> {
    match DecodeRequest(inbox)
    case Err(_) => None
    case Ok((prefix, rest)) => WithPrefix(prefix, ServerReads(ServerFraming(Table(prefix.headers)), rest))
  }

  function WithPrefix(prefix: RequestPrefix, read: Option<(seq<Byte>, seq<Byte>)>): Option<(RequestPrefix, seq<Byte>)> {
    if read.Some? then Some((prefix, read.value.0)) else None
  }

  /** How a server frames the body of a call, and what is there of it. */
  lemma CallBody(location: Text, encoded: seq<Byte>, out: seq<Byte>, sent: bool)
    requires FramedAs(encoded, out, sent)
    ensures DecodeRequest(EncodeRequest(CallPrefix(location)) + out) == Ok((CallPrefix(location), out))
    ensures ServerFraming(Table(CallPrefix(location).headers)) == InChunks
    ensures BodyAt(InChunks, out) <= encoded
    ensures ServerReads(InChunks, out) == if sent then Some((encoded, [])) else None
  {
    RequestRoundTrip(CallPrefix(location), out);
    ChunkedHeadersSayChunked();
    FramingsAgree(ChunkedHeaders());
  }

  /** The server reads a whole request exactly when no write of it failed, whatever the encoder came to. */
  lemma ServerGetsIfSent(location: Text, encoded: seq<Byte>, out: seq<Byte>, sent: bool)
    requires FramedAs(encoded, out, sent)
    ensures ServerGets(EncodeRequest(CallPrefix(location)) + out) ==
      if sent then Some((CallPrefix(location), encoded)) else None
  {
    CallBody(location, encoded, out, sent);
  }

  /** The server takes a request that its encoder did not finish for a whole one. */
  predicate ServerMisled(location: Text, encoded: seq<Byte>, whole: bool, inbox: seq<Byte>) {
    !whole && ServerGets(inbox) == Some((CallPrefix(location), encoded))
  }

  /** That comes about exactly when the encoder failed and no write did; the caller is told of it, the server not. */
  lemma ServerIsMisled<S>(x: Exchange<S>, routes: RouteValues<ListRouter.Interface<S>>, refusal: Text,
                          location: Text, encoded: seq<Byte>, whole: bool)
    requires x.Sound(routes, refusal, location, encoded, whole)
    ensures ServerMisled(location, encoded, whole, x.before.pending) <==> x.sent && !whole
    ensures ServerMisled(location, encoded, whole, x.before.pending) ==> x.res == Err(Encode)
  {
    ServerGetsIfSent(location, encoded, x.out, x.sent);
  }

  /** A service that ran had a front of the encoded request before its decoder, and at its end all of it. */
  lemma RequestIsTaken<S>(x: Exchange<S>, routes: RouteValues<ListRouter.Interface<S>>, refusal: Text,
                          location: Text, encoded: seq<Byte>, whole: bool)
    requires x.Sound(routes, refusal, location, encoded, whole)
    requires x.outcome.served.Handled? && x.outcome.served.ran.Some?
    ensures Handed(x.outcome.intake, encoded, x.out, x.sent)
  {
    CallBody(location, encoded, x.out, x.sent);
    HandledIntake(x, routes, refusal);
    IntakeOfCall(x.outcome.intake, encoded, x.out, x.sent);
  }

  /** What a decoder was handed of a request, unless a read broke off inside a chunk header. */
  predicate Handed(intake: Intake, encoded: seq<Byte>, out: seq<Byte>, sent: bool) {
    !intake.lost ==>
      && intake.delivered <= encoded
      && (intake.ended ==> sent && intake.delivered == encoded && intake.taken == out)
  }

  lemma HandledIntake<S>(x: Exchange<S>, routes: RouteValues<ListRouter.Interface<S>>, refusal: Text)
    requires Serves(routes, refusal, x.conduct, x.before, x.outcome, x.after)
    requires x.outcome.served.Handled? && x.outcome.served.ran.Some?
    ensures Answers(x.conduct, x.outcome.answer)
    ensures var (prefix, rest) := DecodeRequest(x.before.pending).value;
      x.outcome.intake.Of(ServerFraming(Table(prefix.headers)), rest)
  {
  }

  lemma IntakeOfCall(intake: Intake, encoded: seq<Byte>, out: seq<Byte>, sent: bool)
    requires intake.Of(InChunks, out) && BodyAt(InChunks, out) <= encoded
    requires ServerReads(InChunks, out) == if sent then Some((encoded, [])) else None
    ensures Handed(intake, encoded, out, sent)
  {
    assert out == intake.taken + out[|intake.taken|..];
  }

  /** And the answer comes back. */
  lemma AnswerComesBack<S>(x: Exchange<S>, routes: RouteValues<ListRouter.Interface<S>>, refusal: Text,
                           location: Text, encoded: seq<Byte>, whole: bool)
    requires x.Sound(routes, refusal, location, encoded, whole) && x.Answered()
    ensures whole && x.sent && x.outcome.served.Handled?
    ensures Told(x.outcome.answer, x.outcome.sent, x.accepts, x.res, x.reading)
  {
    AnsweredWasHandled(x, routes, refusal, location, encoded, whole);
    HandledSends(x, routes, refusal);
    AnswerIsTold(x.outcome.trace.reply, x.outcome.answer, x.outcome.sent, x.accepts, x.res, x.reading, x.rest);
  }

  /** The service that ran is the one the routers reach for the location. */
  lemma ReachedServiceRan<S>(x: Exchange<S>, routes: RouteValues<ListRouter.Interface<S>>, refusal: Text,
                             location: Text)
    requires Serves(routes, refusal, x.conduct, x.before, x.outcome, x.after) && x.outcome.served.Handled?
    requires DecodeRequest(x.before.pending).Ok? && DecodeRequest(x.before.pending).value.0 == CallPrefix(location)
    ensures x.outcome.served.ran == Reached(routes, CallPrefix(location))
  {
  }

  /**
   * A caller that was told anything called the service it meant: at a location composed from an
   * interface and a service, the one registered last under them ran, its decoder was handed the encoded
   * request and nothing else, and the caller was told exactly what the service answered.
   */
  lemma CallReachesService<S>(x: Exchange<S>, routes: RouteValues<ListRouter.Interface<S>>, refusal: Text,
                              location: Text, encoded: seq<Byte>, whole: bool,
                              interface: string, path: string, index: nat, service: nat)
    requires x.Sound(routes, refusal, location, encoded, whole) && x.Answered()
    requires IsUnits(ConcatLocation(interface, path)) && location == Units(ConcatLocation(interface, path))
    requires UnderOwnPath(routes) && Latest(routes, index, interface)
    requires NoLongerInterface(routes, interface, ConcatLocation(interface, path))
    requires Latest(routes.HandlerAt(index).services, service, path)
    ensures whole && x.sent && x.outcome.served.Handled?
    ensures x.outcome.served.ran == Some(routes.HandlerAt(index).services.HandlerAt(service))
    ensures ServerGets(x.before.pending) == Some((CallPrefix(location), encoded))
    ensures Handed(x.outcome.intake, encoded, x.out, true)
    ensures Answers(x.conduct, x.outcome.answer)
    ensures Told(x.outcome.answer, x.outcome.sent, x.accepts, x.res, x.reading)
  {
    CharsOfUnits(ConcatLocation(interface, path));
    AnswerComesBack(x, routes, refusal, location, encoded, whole);
    ServerGetsIfSent(location, encoded, x.out, x.sent);
    CallBody(location, encoded, x.out, x.sent);
    ReachedServiceRan(x, routes, refusal, location);
    ComposedLocationArrives(routes, index, service, interface, path);
    RequestIsTaken(x, routes, refusal, location, encoded, whole);
    HandledIntake(x, routes, refusal);
  }

  /** A caller that was told anything of a call that reaches no service was told 404 and the location. */
  lemma UnknownServiceIsNotFound<S>(x: Exchange<S>, routes: RouteValues<ListRouter.Interface<S>>, refusal: Text,
                                    location: Text, encoded: seq<Byte>, whole: bool)
    requires x.Sound(routes, refusal, location, encoded, whole) && x.Answered()
    requires Reached(routes, CallPrefix(location)).None?
    ensures x.res == Err(Remote(404, location))
  {
    AnswerComesBack(x, routes, refusal, location, encoded, whole);
    CallBody(location, encoded, x.out, x.sent);
    ReachedServiceRan(x, routes, refusal, location);
  }

  /** Before its body is read: the reply's prefix is off, and its plan is settled. */
  lemma PrefixCanBeRead(location: Text, sent: seq<Byte>, wire: seq<Byte>)
    returns (start: Protocol.Session, between: Protocol.Session)
    ensures start.inbox == EncodeResponse(OkPrefix()) + wire && start.request.access.Call?
    ensures Protocol.ReceivesPrefix(start, Protocol.Done, between)
    ensures between.state.PrefixReady? && between.plan == Some(BodyPlan.Chunked) && between.inbox == wire
    ensures DecodeResponse(start.inbox) == Ok((OkPrefix(), wire))
  {
    var inbox := EncodeResponse(OkPrefix()) + wire;
    start := Protocol.Session(CallPrefix(location), Protocol.WaitingResp, None, Protocol.Fresh, sent, inbox);
    between := start.(state := Protocol.PrefixReady, plan := Some(BodyPlan.Chunked), inbox := wire);
    ResponseRoundTrip(OkPrefix(), wire);
    ChunkedHeadersSayChunked();
  }

  /** A session that reads a value's reply through to its end. */
  lemma ValueCanBeRead(location: Text, sent: seq<Byte>, wire: seq<Byte>, value: seq<Byte>) returns (reading: Reading)
    requires ChunkFormat.Deframe(wire) == ChunkFormat.Complete(value, [])
    ensures Received(EncodeResponse(OkPrefix()) + wire, true, Ok(()), reading, [])
    ensures reading.AtItsEnd() && reading.delivered == value
  {
    var start, between := PrefixCanBeRead(location, sent, wire);
    var place := ChunkedReader.Cursor(0, true, []);
    var after := between.(state := Protocol.BodyReady, progress := Protocol.ChunkedAt(true), inbox := []);
    assert value + [] == value;
    reading := Reading(start, between, after, value, place, Protocol.Done);
  }

  /** A call that takes `out` and replies, with nothing left to drain. */
  lemma CallTrace(before: Ledger, out: seq<Byte>, reply: seq<Act>, answer: Answer) returns (trace: Trace, after: Ledger)
    requires before.sent == [] && before.pending == out && OneReply(reply, answer, true)
    ensures trace == Trace([Consumed(out)], reply, [], true) && trace.Sound(true, answer, true)
    ensures Happened(before, trace.Acts(), after) && after.sent == SentBy(reply) && after.pending == []
  {
    trace := Trace([Consumed(out)], reply, [], true);
    OneAct(Consumed(out));
    TraceSends(trace, true, answer, true);
    assert out + [] == out;
    after := Ledger(SentBy(reply), [], before.trace + EventsOf(trace.Acts()));
  }

  /** A decoder that reads a whole request to its end. */
  lemma WholeIntake(encoded: seq<Byte>, out: seq<Byte>) returns (intake: Intake)
    requires FramedAs(encoded, out, true)
    ensures intake == Intake(out, encoded, true, false) && intake.Of(InChunks, out)
  {
    intake := Intake(out, encoded, true, false);
    assert out[|out|..] == [];
  }

  /** A handler that answers a call with a value, its decoder having read the request to the end. */
  lemma ValueCanBeServed<S>(routes: RouteValues<ListRouter.Interface<S>>, refusal: Text, location: Text,
                            encoded: seq<Byte>, out: seq<Byte>, value: seq<Byte>, reply: seq<Act>)
    returns (before: Ledger, outcome: Server.Outcome<S>, after: Ledger)
    requires Reached(routes, CallPrefix(location)).Some? && FramedAs(encoded, out, true)
    requires OneReply(reply, Value(value, true), true)
    ensures before.sent == [] && before.pending == EncodeRequest(CallPrefix(location)) + out
    ensures after.sent == SentBy(reply) && Serves(routes, refusal, Returns(value, true), before, outcome, after)
    ensures outcome.served == Handled(true, Reached(routes, CallPrefix(location)))
    ensures outcome.answer == Value(value, true) && outcome.intake == Intake(out, encoded, true, false)
  {
    before := Ledger([], EncodeRequest(CallPrefix(location)) + out, []);
    CallBody(location, encoded, out, true);
    var trace;
    trace, after := CallTrace(AfterPrefix(before), out, reply, Value(value, true));
    var intake := WholeIntake(encoded, out);
    var ran := Reached(routes, CallPrefix(location));
    outcome := Outcome(Handled(true, ran), Value(value, true), true, trace, intake);
    assert HandsOver(routes, refusal, CallPrefix(location), Returns(value, true), AfterPrefix(before), outcome, after);
  }

  /** Any encoded request can be on the wire whole. */
  lemma CanBeSent(encoded: seq<Byte>) returns (out: seq<Byte>)
    ensures FramedAs(encoded, out, true)
  {
    out := ChunkFormat.Frames(Pieces(encoded)) + ChunkFormat.TERMINATOR;
    ChunkFormat.BodyRoundTrip(Pieces(encoded), []);
    assert out + [] == out;
  }

  /**
   * Such calls exist: whatever is encoded at either end, wherever a location reaches a service, there
   * is an exchange in which the service is handed the whole request and the caller the whole value.
   */
  lemma CallCanSucceed<S>(routes: RouteValues<ListRouter.Interface<S>>, refusal: Text, location: Text,
                          encoded: seq<Byte>, value: seq<Byte>)
    returns (x: Exchange<S>)
    requires Reached(routes, CallPrefix(location)).Some?
    ensures x.Sound(routes, refusal, location, encoded, true) && x.res.Ok?
    ensures x.outcome.intake.delivered == encoded && x.outcome.intake.ended && !x.outcome.intake.lost
    ensures x.outcome.answer == Value(value, true) && x.reading.AtItsEnd() && x.reading.delivered == value
  {
    var out := CanBeSent(encoded);
    var wire, reply := SentReply(value, true);
    var before, outcome, after := ValueCanBeServed(routes, refusal, location, encoded, out, value, reply);
    var reading := ValueCanBeRead(location, before.pending, wire, value);
    ReplyWire(reply, outcome.answer, true);
    x := Exchange(out, true, true, Ok(()), reading, [], Returns(value, true), outcome, before, after);
  }

  /**
   * And so do calls whose encoder failed, wherever it stopped: the service runs on the cut request,
   * which its decoder reads to its end, while the caller is told of the failure.
   */
  lemma CutCallCanRun<S>(routes: RouteValues<ListRouter.Interface<S>>, refusal: Text, location: Text,
                         encoded: seq<Byte>)
    returns (x: Exchange<S>)
    requires Reached(routes, CallPrefix(location)).Some?
    ensures x.Sound(routes, refusal, location, encoded, false) && x.res == Err(Encode)
    ensures x.outcome.served.Handled? && x.outcome.served.ran == Reached(routes, CallPrefix(location))
    ensures x.outcome.intake.delivered == encoded && x.outcome.intake.ended && !x.outcome.intake.lost
    ensures ServerMisled(location, encoded, false, x.before.pending)
  {
    var out := CanBeSent(encoded);
    var wire, reply := SentReply([], true);
    var before, outcome, after := ValueCanBeServed(routes, refusal, location, encoded, out, [], reply);
    var reading: Reading := *;
    ServerGetsIfSent(location, encoded, out, true);
    x := Exchange(out, true, true, Err(Encode), reading, [], Returns([], true), outcome, before, after);
  }

  /** What is on the inbox of a caller whose answer was sent whole. */
  lemma WholeReplyIsThere(reply: seq<Act>, answer: Answer)
    requires OneReply(reply, answer, true)
    ensures ReplyIsThere(SentBy(reply)) && ValueIsThere(SentBy(reply))
  {
    ReplyReachesCaller(reply, answer, []);
    assert SentBy(reply) + [] == SentBy(reply);
    ReplyWire(reply, answer, true);
    ResponseRoundTrip(answer.Prefix(), reply[1].bytes);
    if answer.Refusal? {
      StatusPrefixDeclares(answer.status, answer.message);
    }
  }

  /** An exchange in which nothing failed on the way, the decoders making these borrows. */
  ghost predicate Calm<S>(x: Exchange<S>, location: Text, serverWishes: seq<Wish>, callerWishes: seq<Wish>) {
    && x.sent && !x.outcome.served.BadPrefix? && DecodeRequest(x.before.pending).Ok?
    && Undisturbed(CallPrefix(location), AfterPrefix(x.before), x.outcome, true, true, serverWishes)
    && (x.res != Err(Encode) && ReplyIsThere(x.after.sent) ==> x.res != Err(Transport))
    && (Greedy(callerWishes) && ValueIsThere(x.after.sent) ==>
          x.res.Ok? || x.res.error.Decode? ==> x.reading.KeepsUp(|callerWishes|))
  }

  /** Where no interface is reached nothing comes back, and the caller is told of a failed transfer. */
  lemma NoRouteIsTransport<S>(x: Exchange<S>, routes: RouteValues<ListRouter.Interface<S>>, refusal: Text,
                              location: Text, encoded: seq<Byte>)
    requires x.Sound(routes, refusal, location, encoded, true) && !x.outcome.served.Handled?
    ensures x.res == Err(Transport)
  {
    if x.Answered() {
      AnsweredWasHandled(x, routes, refusal, location, encoded, true);
    }
  }

  /** A calm exchange is answered wherever an interface is reached. */
  lemma CalmCallIsAnswered<S>(x: Exchange<S>, routes: RouteValues<ListRouter.Interface<S>>, refusal: Text,
                              location: Text, encoded: seq<Byte>, serverWishes: seq<Wish>, callerWishes: seq<Wish>)
    requires x.Sound(routes, refusal, location, encoded, true) && Calm(x, location, serverWishes, callerWishes)
    requires MatchRoute(routes, Chars(location)).Some?
    ensures x.Answered() && x.outcome.sent
    ensures Greedy(callerWishes) && (x.res.Ok? || x.res.error.Decode?) ==> x.reading.KeepsUp(|callerWishes|)
  {
    CallBody(location, encoded, x.out, x.sent);
    assert x.outcome.served.Handled?;
    HandledSends(x, routes, refusal);
    WholeReplyIsThere(x.outcome.trace.reply, x.outcome.answer);
  }

  /** In a calm exchange a decoder that keeps reading is handed the whole request. */
  lemma CalmRequestIsHanded<S>(x: Exchange<S>, routes: RouteValues<ListRouter.Interface<S>>, refusal: Text,
                               location: Text, encoded: seq<Byte>, whole: bool,
                               serverWishes: seq<Wish>, callerWishes: seq<Wish>)
    requires x.Sound(routes, refusal, location, encoded, whole) && Calm(x, location, serverWishes, callerWishes)
    requires Reached(routes, CallPrefix(location)).Some?
    ensures x.outcome.served.Handled? && x.outcome.served.ran == Reached(routes, CallPrefix(location))
    ensures Greedy(serverWishes) && |serverWishes| > |encoded| ==>
      x.outcome.intake.ended && !x.outcome.intake.lost && x.outcome.intake.delivered == encoded
  {
    CallBody(location, encoded, x.out, x.sent);
    assert x.outcome.served.Handled?;
    ReachedServiceRan(x, routes, refusal, location);
    RequestIsTaken(x, routes, refusal, location, encoded, whole);
  }

  /** What a caller that was told something is told of a service's conduct. */
  predicate ToldOf(conduct: Conduct, accepts: bool, res: Result<(), CallError>, reading: Reading, keepsReading: bool) {
    match conduct
    case Returns(value, _) =>
      && (if accepts then res.Ok? else res == Err(Decode))
      && (keepsReading ==> reading.AtItsEnd() && reading.delivered == value)
    case Raises(status, message) => status != 200 ==> res == Err(Remote(status, message))
    case Rejects(status, message) => status != 200 ==> res == Err(Remote(status, message))
  }

  lemma ConductIsTold(conduct: Conduct, answer: Answer, sent: bool, accepts: bool, res: Result<(), CallError>,
                      reading: Reading, turns: nat)
    requires Answers(conduct, answer) && Told(answer, sent, accepts, res, reading)
    requires res.Ok? || res.error.Remote? || res.error.Decode?
    ensures ToldOf(conduct, accepts, res, reading, reading.KeepsUp(turns) && turns > |answer.Bytes()|)
  {
    assert answer.Refusal? ==> answer.Prefix().status == answer.status;
  }

  /**
   * Where nothing fails, a call whose location reaches a service comes out as it should. A decoder that
   * keeps reading is handed the whole request; what the service returns is the value the caller reads,
   * all of it if its decoder keeps reading; and what it raises, unless that has status 200, is what the
   * caller is told.
   */
  lemma CalmCallComesOut<S>(x: Exchange<S>, routes: RouteValues<ListRouter.Interface<S>>, refusal: Text,
                            location: Text, encoded: seq<Byte>, serverWishes: seq<Wish>, callerWishes: seq<Wish>)
    requires x.Sound(routes, refusal, location, encoded, true) && Calm(x, location, serverWishes, callerWishes)
    requires Reached(routes, CallPrefix(location)).Some?
    ensures x.outcome.served.Handled? && x.outcome.served.ran == Reached(routes, CallPrefix(location))
    ensures Greedy(serverWishes) && |serverWishes| > |encoded| ==>
      x.outcome.intake.ended && !x.outcome.intake.lost && x.outcome.intake.delivered == encoded
    ensures ToldOf(x.conduct, x.accepts, x.res, x.reading,
                   Greedy(callerWishes) && |callerWishes| > |x.outcome.answer.Bytes()|)
  {
    CalmRequestIsHanded(x, routes, refusal, location, encoded, true, serverWishes, callerWishes);
    CalmCallIsAnswered(x, routes, refusal, location, encoded, serverWishes, callerWishes);
    AnswerComesBack(x, routes, refusal, location, encoded, true);
    CallBody(location, encoded, x.out, x.sent);
    HandledIntake(x, routes, refusal);
    ConductIsTold(x.conduct, x.outcome.answer, x.outcome.sent, x.accepts, x.res, x.reading, |callerWishes|);
  }

  /** And one whose location reaches no service is refused, or ends with the transfer where no interface is. */
  lemma CalmCallIsRefused<S>(x: Exchange<S>, routes: RouteValues<ListRouter.Interface<S>>, refusal: Text,
                             location: Text, encoded: seq<Byte>, serverWishes: seq<Wish>, callerWishes: seq<Wish>)
    requires x.Sound(routes, refusal, location, encoded, true) && Calm(x, location, serverWishes, callerWishes)
    requires Reached(routes, CallPrefix(location)).None?
    ensures x.res == if MatchRoute(routes, Chars(location)).Some? then Err(Remote(404, location)) else Err(Transport)
  {
    if MatchRoute(routes, Chars(location)).Some? {
      CalmCallIsAnswered(x, routes, refusal, location, encoded, serverWishes, callerWishes);
      UnknownServiceIsNotFound(x, routes, refusal, location, encoded, true);
    } else {
      UnroutedIsNotHandled(x, routes, refusal, location, encoded);
      NoRouteIsTransport(x, routes, refusal, location, encoded);
    }
  }

  /** Without a route nobody handles the call. */
  lemma UnroutedIsNotHandled<S>(x: Exchange<S>, routes: RouteValues<ListRouter.Interface<S>>, refusal: Text,
                                location: Text, encoded: seq<Byte>)
    requires x.Sound(routes, refusal, location, encoded, true)
    requires MatchRoute(routes, Chars(location)).None?
    ensures !x.outcome.served.Handled?
  {
    CallBody(location, encoded, x.out, x.sent);
  }

  /**
   * A whole call over two steady channels, its ends run one after the other: the caller sends, the
   * server serves what was sent, the caller reads what was written back.
   */
  method RunCall<S>(routes: RouteValues<ListRouter.Interface<S>>, refusal: Text, location: Text,
                    encoded: seq<Byte>, whole: bool, serverWishes: seq<Wish>, conduct: Conduct,
                    callerWishes: seq<Wish>, accepts: bool)
    returns (res: Result<(), CallError>, ghost x: Exchange<S>)
    ensures x.Sound(routes, refusal, location, encoded, whole) && Calm(x, location, serverWishes, callerWishes)
    ensures x.res == res && x.conduct == conduct && x.accepts == accepts
  {
    var session, inbox;
    ghost var out, reading;
    session, inbox, out := SendRequest(location, encoded);
    var goesOn, put;
    ghost var outcome, after;
    goesOn, put, outcome, after := ServeNext(routes, refusal, inbox, true, serverWishes, conduct);
    session.rx.pending := put;
    res, reading := Err(Encode), *;
    if whole {
      res, reading := ReceiveReply(session, callerWishes, accepts);
    }
    x := Exchange(out, true, accepts, res, reading, session.rx.pending, conduct, outcome, Ledger([], inbox, []), after);
    PutTogether(x, routes, refusal, location, encoded, whole, serverWishes, callerWishes);
  }

  /** What each end did over a steady channel makes up a calm exchange. */
  lemma PutTogether<S>(x: Exchange<S>, routes: RouteValues<ListRouter.Interface<S>>, refusal: Text, location: Text,
                       encoded: seq<Byte>, whole: bool, serverWishes: seq<Wish>, callerWishes: seq<Wish>)
    requires x.sent && FramedAs(encoded, x.out, true)
    requires x.before == Ledger([], EncodeRequest(CallPrefix(location)) + x.out, [])
    requires Serves(routes, refusal, x.conduct, x.before, x.outcome, x.after)
    requires DecodeRequest(x.before.pending).Ok? ==>
      && !x.outcome.served.BadPrefix?
      && Undisturbed(DecodeRequest(x.before.pending).value.0, AfterPrefix(x.before), x.outcome, true, true,
                     serverWishes)
    requires if whole then CallerReceived(x, callerWishes) else x.res == Err(Encode)
    ensures x.Sound(routes, refusal, location, encoded, whole) && Calm(x, location, serverWishes, callerWishes)
  {
    CallBody(location, encoded, x.out, true);
  }

  /** What a caller receives over a steady channel. */
  predicate CallerReceived<S>(x: Exchange<S>, callerWishes: seq<Wish>) {
    && Received(x.after.sent, x.accepts, x.res, x.reading, x.rest) && x.res != Err(Encode)
    && (ReplyIsThere(x.after.sent) ==> x.res != Err(Transport))
    && (Greedy(callerWishes) && ValueIsThere(x.after.sent) ==>
          x.res.Ok? || x.res.error.Decode? ==> x.reading.KeepsUp(|callerWishes|))
  }

  /** The caller's half up to the end of its request, over a steady channel; `inbox` is all that it wrote. */
  method SendRequest(location: Text, encoded: seq<Byte>)
    returns (session: MptpSession, inbox: seq<Byte>, ghost out: seq<Byte>)
    ensures session.Valid() && session.state.WaitingResp? && session.request == CallPrefix(location)
    ensures session.rx.steady && inbox == EncodeRequest(CallPrefix(location)) + out && FramedAs(encoded, out, true)
    ensures fresh(session) && fresh(session.rx) && fresh(session.tx) && fresh(session.rx.channel)
  {
    var channel := new Channel();
    var tx := new ByteSink.On(channel, true, true);
    var rx := new ByteSource.On(channel, [], true, true);
    var ok, written := WriteRequestPrefix(CallPrefix(location), Into(tx));
    ChunkedHeadersSayChunked();
    session := new MptpSession(CallPrefix(location), tx, rx);
    var sent;
    ghost var chunks;
    sent, out, chunks := SendCall(session, location, encoded);
    inbox := tx.written;
  }
}
