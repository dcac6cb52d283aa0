/** One unary call from the client's side: the request body through the ring, then the response. */
module UnaryClient {
  import opened Wrappers
  import opened Octets
  import opened Readers
  import opened ChunkFormat
  import ChunkedReader
  import opened MessagePack
  import opened Headers
  import opened Prefix
  import opened BodyFraming
  import opened Message
  import opened BodyView
  import opened Reply
  import opened Protocol = Session
  import opened MptpSession

  datatype CallError = Transport | Encode | Decode | Remote(status: U16, body: seq<Byte>)

  /** The bytes an error body is read for. */
  function ErrorSize(headers: Option<Headers>): nat {
    if headers.None? || BodySizeOf(headers.value).None? then 0 else BodySizeOf(headers.value).value
  }

  /** What a call that ended in a remote error took off a response. */
  predicate RemoteError(inbox: seq<Byte>, status: U16, body: seq<Byte>, rest: seq<Byte>) {
    var decoded := DecodeResponse(inbox);
    && decoded.Ok? && decoded.value.0.status == status != STATUS_OK
    && decoded.value.1 == body + rest && |body| == ErrorSize(decoded.value.0.headers)
  }

  /**
   * Send the call: `encoded` is what the encoder wrote before it closed the ring. Without a failed
   * write all of it is on the wire, in closed frames; else a part of it, never closed.
   */
  method SendCall(session: MptpSession, ghost location: Text, encoded: seq<Byte>)
    returns (sent: bool, ghost out: seq<Byte>, ghost chunks: seq<seq<Byte>>)
    requires session.Valid() && session.state.SendingBody? && session.request == CallPrefix(location)
    modifies session`state, session.tx, session.tx.channel
    ensures session.Valid() && session.state == if sent then WaitingResp else SendingBody
    ensures session.tx.written == old(session.tx.written) + out && FramedAs(encoded, out, sent)
    ensures sent ==> AllSized(chunks) && Concat(chunks) == encoded && out == Frames(chunks) + TERMINATOR
    ensures session.tx.steady ==> sent
  {
    ChunkedHeadersSayChunked();
    ghost var before := session.Model();
    assert before.RequestPlan() == Ok(BodyPlan.Chunked);
    var ring := new ByteSource(encoded, true, session.tx.steady);
    var outcome;
    outcome, chunks, out := session.SendReqBody(Raw(ring));
    assert SendsBody(before, chunks, out, outcome, session.Model());
    sent := outcome.Done?;
    if sent {
      BodyRoundTrip(chunks, []);
      assert out + [] == out && Concat(chunks) + [] == Concat(chunks);
    }
  }

  /** What was read of a response, as a run of the session. */
  datatype Reading = Reading(before: Session, between: Session, after: Session,
                             delivered: seq<Byte>, place: ChunkedReader.Cursor, outcome: Outcome)
  {
    predicate Sound(inbox: seq<Byte>) {
      && before.inbox == inbox && before.request.access.Call? && ReceivesPrefix(before, Done, between)
      && ReadsBody(between, delivered, place, outcome, after)
    }

    /** The body view was given back with nothing of the body left. */
    predicate AtItsEnd() {
      outcome.Done? && between.plan.Some? && AtEnd(between.plan.value, place)
    }

    /** Nothing was lost, and each of `turns` reads got a byte unless the end was seen. */
    predicate KeepsUp(turns: nat) {
      outcome.Done? && (AtItsEnd() || |delivered| >= turns)
    }
  }

  /** A value was read, whatever its decoder made of it: the status is 200. */
  predicate ReadsValue(inbox: seq<Byte>, reading: Reading, rest: seq<Byte>) {
    && DecodeResponse(inbox).Ok? && DecodeResponse(inbox).value.0.status == STATUS_OK
    && reading.Sound(inbox) && reading.after.inbox == rest
  }

  /** What came of reading a response: a value when its decoder accepts it, else the error's bytes. */
  predicate Received(inbox: seq<Byte>, accepts: bool, res: Result<(), CallError>, reading: Reading, rest: seq<Byte>) {
    match res
    case Ok(_) => accepts && ReadsValue(inbox, reading, rest)
    case Err(Decode) => !accepts && ReadsValue(inbox, reading, rest)
    case Err(Remote(status, body)) => RemoteError(inbox, status, body, rest)
    case Err(_) => true
  }

  /** A response is on the inbox as far as a caller reads it: its prefix, and the message of an error. */
  predicate ReplyIsThere(inbox: seq<Byte>) {
    var decoded := DecodeResponse(inbox);
    && decoded.Ok?
    && (decoded.value.0.status != STATUS_OK ==>
          var size, plan := ErrorSize(decoded.value.0.headers), PlanOf(BodyInfo(decoded.value.0.headers), Call);
          plan.Ok? && size <= PlanSize(plan.value) && size <= |decoded.value.1|)
  }

  /** The body of a response is on the inbox whole. */
  predicate ValueIsThere(inbox: seq<Byte>) {
    var decoded := DecodeResponse(inbox);
    && decoded.Ok?
    && var plan := PlanOf(BodyInfo(decoded.value.0.headers), Call);
    plan.Ok? && ReadWhole(plan.value, decoded.value.1).Some?
  }

  /** Read the response to a call. */
  method ReceiveReply(session: MptpSession, wishes: seq<Wish>, accepts: bool)
    returns (res: Result<(), CallError>, ghost reading: Reading)
    requires session.Valid() && session.state.WaitingResp? && session.request.access.Call?
    modifies session, session.rx, session.rx.channel
    ensures session.Valid() && Received(old(session.rx.pending), accepts, res, reading, session.rx.pending)
    ensures res.Err? ==> !res.error.Encode?
    ensures session.rx.steady && ReplyIsThere(old(session.rx.pending)) ==> res != Err(Transport)
    ensures session.rx.steady && Greedy(wishes) && ValueIsThere(old(session.rx.pending)) ==>
      res.Ok? || res.error.Decode? ==> reading.KeepsUp(|wishes|)
  {
    reading := *;
    ghost var before := session.Model();
    PlanOfCall(before.inbox);
    var outcome, prefix := session.RecvRespPrefix();
    ghost var between := session.Model();
    if !outcome.Done? {
      return Err(Transport), reading;
    }
    if prefix.value.status != STATUS_OK {
      var failed, body, _ := session.RecvErrorBody(ErrorSize(prefix.value.headers));
      res := Err(if failed.Some? then Transport else Remote(prefix.value.status, body));
      return;
    }
    ghost var ended, delivered, place := session.RecvRespBody(wishes);
    reading := Reading(before, between, session.Model(), delivered, place, ended);
    res := if accepts then Ok(()) else Err(Decode);
  }

  /** A response to a call may declare any body. */
  lemma PlanOfCall(inbox: seq<Byte>)
    ensures Acceptable(DecodeResponse(inbox), Call) <==> DecodeResponse(inbox).Ok?
  {
  }

  /** What a whole call came to: what it put out, what it read, and what the caller is told. */
  predicate Calls(encoded: seq<Byte>, whole: bool, accepts: bool, out: seq<Byte>, sent: bool, inbox: seq<Byte>,
                  res: Result<(), CallError>, reading: Reading, rest: seq<Byte>)
  {
    && (!whole <==> res == Err(Encode))
    && FramedAs(encoded, out, sent) && (res.Ok? || res.error.Remote? || res.error.Decode? ==> sent)
    && Received(inbox, accepts, res, reading, rest)
  }

  /** The whole call: an encoder that failed is reported first, then a failed transfer, then the reply. */
  method UnaryCall(session: MptpSession, ghost location: Text, encoded: seq<Byte>, whole: bool, wishes: seq<Wish>,
                   accepts: bool)
    returns (res: Result<(), CallError>, ghost out: seq<Byte>, sent: bool, ghost reading: Reading)
    requires session.Valid() && session.state.SendingBody? && session.request == CallPrefix(location)
    modifies session, session.tx, session.tx.channel, session.rx, session.rx.channel
    ensures session.Valid() && session.tx.written == old(session.tx.written) + out
    ensures Calls(encoded, whole, accepts, out, sent, old(session.rx.pending), res, reading, session.rx.pending)
    ensures session.tx.steady ==> sent
    ensures whole && sent && session.rx.steady && ReplyIsThere(old(session.rx.pending)) ==> res != Err(Transport)
    ensures session.rx.steady && Greedy(wishes) && ValueIsThere(old(session.rx.pending)) ==>
      res.Ok? || res.error.Decode? ==> reading.KeepsUp(|wishes|)
  {
    ghost var chunks;
    sent, out, chunks := SendCall(session, location, encoded);
    reading := *;
    if !whole {
      return Err(Encode), out, sent, reading;
    }
    if !sent {
      return Err(Transport), out, sent, reading;
    }
    res, reading := ReceiveReply(session, wishes, accepts);
  }

  /** A value read off a successful reply is a front of what was encoded, and all of it at its end. */
  lemma ValueIsEncoded(reading: Reading, wire: seq<Byte>, value: seq<Byte>, tail: seq<Byte>)
    requires reading.Sound(EncodeResponse(OkPrefix()) + (wire + tail)) && reading.outcome.Done?
    requires Deframe(wire) == Complete(value, [])
    ensures reading.delivered <= value
    ensures reading.AtItsEnd() ==> reading.delivered == value && reading.after.inbox == tail
  {
    PrefixThenBody(reading.before, reading.between, OkPrefix(), wire + tail);
    ChunkedHeadersSayChunked();
    var chunks := DeframeIsExact(wire);
    assert wire == Frames(chunks) + TERMINATOR + [] == BodyWire(Chunked, chunks);
    ChunkViewKeepsTail(chunks, tail, reading.delivered, reading.place);
  }

  /** A remote error carries the status and the message the server replied with, to the byte. */
  lemma RemoteErrorIsVerbatim(inbox: seq<Byte>, status: U16, message: Text, tail: seq<Byte>,
                              seen: U16, body: seq<Byte>, rest: seq<Byte>)
    requires inbox == EncodeResponse(StatusPrefix(status, message)) + message + tail
    requires RemoteError(inbox, seen, body, rest)
    ensures seen == status && body == message && rest == tail
  {
    Associate(EncodeResponse(StatusPrefix(status, message)), message, tail);
    ResponseRoundTrip(StatusPrefix(status, message), message + tail);
    StatusPrefixDeclares(status, message);
    assert (message + tail)[..|message|] == (body + rest)[..|body|];
    assert (message + tail)[|message|..] == (body + rest)[|body|..];
  }
}
