/** A whole message: prefix, body in the framing the prefix declares, and whatever follows. */
module Message {
  import opened Wrappers
  import opened Octets
  import opened ChunkFormat
  import opened Headers
  import opened Prefix
  import opened BodyFraming

  /** The boundary of a response body: a `Head` or `Drop` response must not declare one. */
  function PlanOf(info: BodySize, access: AccessMethod): Result<BodyPlan, PlanError> {
    if !info.NilBody? && (access.Head? || access.Drop?) then Err(BodyNotAllowed) else PlanFrom(info)
  }

  /** The bytes a body takes on the wire. */
  function BodyWire(plan: BodyPlan, chunks: seq<seq<Byte>>): seq<Byte>
    requires plan.Chunked? ==> AllSized(chunks)
  {
    match plan
    case Absent => []
    case Sized(_) => Concat(chunks)
    case Chunked => Frames(chunks) + TERMINATOR
  }

  /** Whether a body, given piece by piece, keeps to its declaration. */
  predicate Fits(plan: BodyPlan, chunks: seq<seq<Byte>>) {
    && (plan.Chunked? ==> AllSized(chunks))
    && (plan.Absent? ==> Concat(chunks) == [])
    && (plan.Sized? ==> |Concat(chunks)| == plan.size)
  }

  /** Reading a body to its end: its bytes and what follows them. */
  function ReadWhole(plan: BodyPlan, wire: seq<Byte>): Option<(seq<Byte>, seq<Byte>)> {
    match plan
    case Absent => Some(([], wire))
    case Sized(n) => if |wire| < n then None else Some((wire[..n], wire[n..]))
    case Chunked =>
      match Deframe(wire)
      case Complete(payload, rest) => Some((payload, rest))
      case _ => None
  }

  lemma BodyReadsBack(plan: BodyPlan, chunks: seq<seq<Byte>>, tail: seq<Byte>)
    requires Fits(plan, chunks)
    ensures ReadWhole(plan, BodyWire(plan, chunks) + tail) == Some((Concat(chunks), tail))
  {
    match plan
    case Absent => assert [] + tail == tail;
    case Sized(n) =>
      var wire := Concat(chunks) + tail;
      assert wire[..n] == Concat(chunks) && wire[n..] == tail;
    case Chunked => BodyRoundTrip(chunks, tail);
  }

  /** What a response may declare: anything, or to a `Head` or `Drop` request nothing. */
  lemma PlanOfIs(headers: Option<Headers>, access: AccessMethod)
    ensures PlanFrom(BodyInfo(headers)).Ok?
    ensures PlanOf(BodyInfo(headers), access) ==
      if BodyInfo(headers).NilBody? || (access != Head && access != Drop) then PlanFrom(BodyInfo(headers))
      else Err(BodyNotAllowed)
  {
    if headers.Some? {
      PlanFollowsSender(headers.value);
    }
  }

  /**
   * A response read prefix first, planned from that prefix, and then read to the end of its body
   * yields the sent prefix, the sent body and the tail; unless it answers `Head` or `Drop` with a body.
   */
  lemma ResponseReadsBack(prefix: ResponsePrefix, access: AccessMethod,
                          chunks: seq<seq<Byte>>, tail: seq<Byte>)
    requires BodyInfo(prefix.headers).NilBody? || (access != Head && access != Drop)
    requires PlanFrom(BodyInfo(prefix.headers)).Ok?
    requires Fits(PlanFrom(BodyInfo(prefix.headers)).value, chunks)
    ensures var sent := PlanFrom(BodyInfo(prefix.headers)).value;
      var decoded := DecodeResponse(EncodeResponse(prefix) + BodyWire(sent, chunks) + tail);
      && decoded.Ok? && decoded.value.0 == prefix
      && var plan := PlanOf(BodyInfo(decoded.value.0.headers), access);
      plan.Ok? && ReadWhole(plan.value, decoded.value.1) == Some((Concat(chunks), tail))
  {
    var plan := PlanFrom(BodyInfo(prefix.headers)).value;
    PlanOfIs(prefix.headers, access);
    Associate(EncodeResponse(prefix), BodyWire(plan, chunks), tail);
    ResponseRoundTrip(prefix, BodyWire(plan, chunks) + tail);
    BodyReadsBack(plan, chunks, tail);
  }

  /** How a server reads a request body to its end. */
  function ServerReads(framing: Framing, wire: seq<Byte>): Option<(seq<Byte>, seq<Byte>)> {
    match framing
    case ExactlyBytes(n) => ReadWhole(Sized(n), wire)
    case InChunks => ReadWhole(Chunked, wire)
  }

  /** The bytes of a request body that are on the wire, whole or not. */
  function BodyAt(framing: Framing, wire: seq<Byte>): seq<Byte> {
    match framing
    case ExactlyBytes(n) => if |wire| < n then wire else wire[..n]
    case InChunks => Deframe(wire).payload
  }

  /** The server takes absent headers for an empty table. */
  function Table(headers: Option<Headers>): Headers {
    if headers.None? then [] else headers.value
  }

  /**
   * A request body arrives whole at the server, and the server stops at the first byte after it,
   * whenever its headers are not of the two kinds on which the ends disagree.
   */
  lemma RequestReadsBack(prefix: RequestPrefix, chunks: seq<seq<Byte>>, tail: seq<Byte>)
    requires !HasBoth(Table(prefix.headers)) && !HexSized(Table(prefix.headers))
    requires PlanFrom(BodyInfo(prefix.headers)).Ok?
    requires Fits(PlanFrom(BodyInfo(prefix.headers)).value, chunks)
    ensures var sent := PlanFrom(BodyInfo(prefix.headers)).value;
      var decoded := DecodeRequest(EncodeRequest(prefix) + BodyWire(sent, chunks) + tail);
      && decoded.Ok? && decoded.value.0 == prefix
      && ServerReads(ServerFraming(Table(prefix.headers)), decoded.value.1) == Some((Concat(chunks), tail))
  {
    var plan, headers := PlanFrom(BodyInfo(prefix.headers)).value, Table(prefix.headers);
    Associate(EncodeRequest(prefix), BodyWire(plan, chunks), tail);
    RequestRoundTrip(prefix, BodyWire(plan, chunks) + tail);
    BodyReadsBack(plan, chunks, tail);
    assert BodyInfo(prefix.headers) == BodyInfo(Some(headers));
    FramingsAgree(headers);
    PlanFollowsSender(headers);
    if plan.Absent? {
      assert Concat(chunks) == [] && [] + tail == tail;
      assert tail[..0] == [] && tail[0..] == tail;
    }
  }
}
