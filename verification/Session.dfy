/**
 * One request and its response over one channel, as a state machine: what each call of the
 * session may do to the bytes sent, the bytes still to be read, and the session's state.
 */
module Session {
  import opened Wrappers
  import opened Octets
  import opened ChunkFormat
  import ChunkedReader
  import opened Prefix
  import opened BodyFraming
  import opened Message

  datatype State = SendingBody | SendingSuffix | WaitingResp | PrefixReady | BodyReady | SuffixReady | Terminated

  /** How much of the response body is known to be unread. */
  datatype Progress = Fresh | SizedLeft(left: nat) | ChunkedAt(ended: bool)

  datatype Session = Session(
    request: RequestPrefix,
    state: State,
    plan: Option<BodyPlan>,
    progress: Progress,
    sent: seq<Byte>,      // everything on the send half
    inbox: seq<Byte>)     // everything the receive half will still deliver
  {
    function RequestPlan(): Result<BodyPlan, PlanError> {
      PlanFrom(BodyInfo(request.headers))
    }
  }

  /** A session begins when its prefix is out; whether a body is due follows from the prefix. */
  function Begin(request: RequestPrefix, inbox: seq<Byte>): Session {
    var state := if BodyInfo(request.headers).NilBody? then WaitingResp else SendingBody;
    Session(request, state, None, Fresh, EncodeRequest(request), inbox)
  }

  datatype Call =
    | SendBody(chunks: seq<seq<Byte>>, partial: seq<Byte>)
    | SendSuffix(bytes: seq<Byte>)
    | RecvPrefix
    | ReadBody(delivered: seq<Byte>, cursor: ChunkedReader.Cursor)  // take the body view, read, give it back
    | RecvSuffix

  /** How a call ended: carried out, turned away by the state machine, or failed on the way. */
  datatype Outcome = Done | Rejected | Failed

  /** A body is due, and the prefix says how to send it. */
  predicate MaySendBody(s: Session) {
    s.state.SendingBody? && s.RequestPlan().Ok? && !s.RequestPlan().value.Absent?
  }

  /** The request's body is out, or none is due: suffixes may follow and the response may be read. */
  predicate PastBody(s: Session) {
    s.state.WaitingResp? || s.state.SendingSuffix?
  }

  /** The length of a body that is not chunked. */
  function PlanSize(plan: BodyPlan): nat {
    if plan.Sized? then plan.size else 0
  }

  /** Where a view of the body at the front of `inbox` stands after `delivered`: its place is `cursor`. */
  predicate ReadTo(plan: BodyPlan, inbox: seq<Byte>, delivered: seq<Byte>, cursor: ChunkedReader.Cursor) {
    if plan.Chunked? then
      cursor.Valid() && Deframe(inbox) == cursor.Ahead().After(delivered)
    else
      && |delivered| <= PlanSize(plan) && inbox == delivered + cursor.wire
      && cursor.left == PlanSize(plan) - |delivered|
  }

  /** A session ready for its body, all of it at the front of the inbox. */
  predicate BodyIsThere(s: Session) {
    s.state.PrefixReady? && s.plan.Some? && ReadWhole(s.plan.value, s.inbox).Some?
  }

  /** What a view that is given back leaves in the session's record. */
  function Recorded(plan: BodyPlan, cursor: ChunkedReader.Cursor): Progress {
    if plan.Chunked? then ChunkedAt(cursor.ended) else SizedLeft(cursor.left)
  }

  predicate AtEnd(plan: BodyPlan, cursor: ChunkedReader.Cursor) {
    if plan.Chunked? then cursor.ended else cursor.left == 0
  }

  /** How much the drain asks for at a time, no more and no less. */
  const DRAIN_STEP: nat := 4096

  /**
   * Whether the drain can return: a view says "end" when it has reached its end, when less than a
   * step is left of its quota, or when the peer closes with less than a step to come.
   */
  predicate DrainReturns(progress: Progress, before: seq<Byte>) {
    match progress
    case SizedLeft(left) => left < DRAIN_STEP || |before| < DRAIN_STEP
    case ChunkedAt(false) =>
      && |before| >= 2
      && (HeaderLen(before[..2]) == 0 || (HeaderLen(before[..2]) >= DRAIN_STEP && |before| - 2 < DRAIN_STEP))
    case _ => true
  }

  /** Unread body is drained by borrowing and giving back untouched, so only headers ever move. */
  predicate Skips(progress: Progress, before: seq<Byte>, after: seq<Byte>) {
    && DrainReturns(progress, before)
    && after == if progress == ChunkedAt(false) then before[2..] else before
  }

  /** Sending the body: success leaves exactly its wire, failure a part that is no whole body. */
  predicate SendsBody(a: Session, chunks: seq<seq<Byte>>, partial: seq<Byte>, outcome: Outcome, b: Session) {
    if !MaySendBody(a) then outcome.Rejected? && b == a
    else
      var plan := a.RequestPlan().value;
      match outcome
      case Done => Fits(plan, chunks) && b == a.(state := WaitingResp, sent := a.sent + BodyWire(plan, chunks))
      case Failed => ReadWhole(plan, partial).None? && b == a.(sent := a.sent + partial)
      case Rejected => false
  }

  /** Sending a suffix: whatever went out is `bytes`; only success leaves `SendingSuffix` again. */
  predicate SendsSuffix(a: Session, bytes: seq<Byte>, outcome: Outcome, b: Session) {
    if !PastBody(a) then outcome.Rejected? && b == a
    else
      var state := if outcome.Done? then WaitingResp else SendingSuffix;
      !outcome.Rejected? && b == a.(state := state, sent := a.sent + bytes)
  }

  /** Reading the prefix: success takes exactly it off the inbox and settles the plan. */
  predicate ReceivesPrefix(a: Session, outcome: Outcome, b: Session) {
    if !PastBody(a) then outcome.Rejected? && b == a
    else if outcome.Done? then
      var decoded := DecodeResponse(a.inbox);
      && decoded.Ok?
      && var plan := PlanOf(BodyInfo(decoded.value.0.headers), a.request.access);
      plan.Ok? && b == a.(state := PrefixReady, plan := Some(plan.value), progress := Fresh, inbox := decoded.value.1)
    else outcome.Failed? && TailOf(b.inbox, a.inbox) && b == a.(inbox := b.inbox)
  }

  /** Reading the body: progress and inbox are those of the view; a failed read lost its place. */
  predicate ReadsBody(a: Session, delivered: seq<Byte>, cursor: ChunkedReader.Cursor, outcome: Outcome, b: Session) {
    if !a.state.PrefixReady? || a.plan.None? then outcome.Rejected? && b == a
    else
      var plan := a.plan.value;
      var progress := Recorded(plan, cursor);
      match outcome
      case Done =>
        && ReadTo(plan, a.inbox, delivered, cursor)
        && b == a.(state := BodyReady, progress := progress, inbox := cursor.wire)
      case Failed =>
        && plan.Chunked? && TailOf(cursor.wire, a.inbox)
        && b == a.(state := BodyReady, progress := progress, inbox := cursor.wire)
      case Rejected => false
  }

  /** Opening the suffix: the rest of the body is skipped, as far as skipping does anything. */
  predicate OpensSuffix(a: Session, outcome: Outcome, b: Session) {
    if !a.state.PrefixReady? && !a.state.BodyReady? then outcome.Rejected? && b == a
    else if outcome.Done? then
      Skips(a.progress, a.inbox, b.inbox) && b == a.(state := SuffixReady, progress := Fresh, inbox := b.inbox)
    else outcome.Failed? && TailOf(b.inbox, a.inbox) && b == a.(inbox := b.inbox)
  }

  /** One call on the session, from `a` to `b`. */
  predicate Step(a: Session, call: Call, outcome: Outcome, b: Session) {
    match call
    case SendBody(chunks, partial) => SendsBody(a, chunks, partial, outcome, b)
    case SendSuffix(bytes) => SendsSuffix(a, bytes, outcome, b)
    case RecvPrefix => ReceivesPrefix(a, outcome, b)
    case ReadBody(delivered, cursor) => ReadsBody(a, delivered, cursor, outcome, b)
    case RecvSuffix => OpensSuffix(a, outcome, b)
  }

  datatype Event = Event(call: Call, outcome: Outcome)

  /** A session from its beginning through any number of calls. */
  datatype Run = From(start: Session) | Then(before: Run, event: Event, after: Session) {
    function Now(): Session {
      if From? then start else after
    }

    function First(): Session {
      if From? then start else before.First()
    }

    ghost predicate Sound() {
      Then? ==> before.Sound() && Step(before.Now(), event.call, event.outcome, after)
    }

    /** No transfer of a body or suffix has failed yet. */
    predicate Unfailed() {
      Then? ==> before.Unfailed() && !TransferFailed(event)
    }

    /** The bodies sent. */
    function Bodies(): seq<seq<seq<Byte>>> {
      if From? then [] else before.Bodies() + BodyOf(event)
    }

    function Suffixes(): seq<seq<Byte>> {
      if From? then [] else before.Suffixes() + SuffixOf(event)
    }

    /** No call that reads has failed yet. */
    predicate ReadsUnfailed() {
      Then? ==> before.ReadsUnfailed() && !ReadFailed(event)
    }

    /** The body bytes delivered. */
    function Delivered(): seq<Byte> {
      if From? then [] else before.Delivered() + DeliveredBy(event)
    }

    /** Where the body view stood when it was last given back. */
    function View(): Option<ChunkedReader.Cursor> {
      if From? then None
      else if event.call.ReadBody? && event.outcome.Done? then Some(event.call.cursor)
      else before.View()
    }
  }

  predicate TransferFailed(e: Event) {
    e.outcome.Failed? && (e.call.SendBody? || e.call.SendSuffix?)
  }

  predicate ReadFailed(e: Event) {
    e.outcome.Failed? && (e.call.RecvPrefix? || e.call.ReadBody? || e.call.RecvSuffix?)
  }

  function DeliveredBy(e: Event): seq<Byte> {
    if e.call.ReadBody? && e.outcome.Done? then e.call.delivered else []
  }

  /** What a call adds to the bodies and suffixes sent, when it is carried out. */
  function BodyOf(e: Event): seq<seq<seq<Byte>>> {
    if e.call.SendBody? && e.outcome.Done? then [e.call.chunks] else []
  }

  function SuffixOf(e: Event): seq<seq<Byte>> {
    if e.call.SendSuffix? && e.outcome.Done? then [e.call.bytes] else []
  }

  /** What is on the send half: the prefix, the body if it was sent, the suffixes in order. */
  ghost predicate SentInOrder(s: Session, bodies: seq<seq<seq<Byte>>>, suffixes: seq<seq<Byte>>) {
    && |bodies| <= 1
    && s.RequestPlan().Ok?
    && (s.state.SendingBody? <==> !s.RequestPlan().value.Absent? && bodies == [])
    && (s.state.SendingBody? ==> suffixes == [])
    && (bodies != [] ==> Fits(s.RequestPlan().value, bodies[0]))
    && s.sent == EncodeRequest(s.request) + BodyPart(s, bodies) + Concat(suffixes)
  }

  ghost function BodyPart(s: Session, bodies: seq<seq<seq<Byte>>>): seq<Byte>
    requires bodies != [] ==> s.RequestPlan().Ok? && Fits(s.RequestPlan().value, bodies[0])
  {
    if bodies == [] then [] else BodyWire(s.RequestPlan().value, bodies[0])
  }

  lemma BeginSends(request: RequestPrefix, inbox: seq<Byte>)
    ensures SentInOrder(Begin(request, inbox), [], [])
  {
    var sent := EncodeRequest(request);
    assert sent + [] + [] == sent;
    if request.headers.Some? {
      PlanFollowsSender(request.headers.value);
    }
  }

  lemma SendBodyInOrder(a: Session, chunks: seq<seq<Byte>>, b: Session)
    requires SentInOrder(a, [], []) && MaySendBody(a) && Step(a, SendBody(chunks, []), Done, b)
    ensures SentInOrder(b, [chunks], [])
  {
    var wire := BodyWire(a.RequestPlan().value, chunks);
    assert BodyPart(a, []) == [];
    assert a.sent == EncodeRequest(a.request);
    assert a.sent + wire == EncodeRequest(b.request) + BodyPart(b, [chunks]) + [];
  }

  lemma SendSuffixInOrder(a: Session, bytes: seq<Byte>, b: Session, bodies: seq<seq<seq<Byte>>>,
                          suffixes: seq<seq<Byte>>)
    requires SentInOrder(a, bodies, suffixes) && PastBody(a) && Step(a, SendSuffix(bytes), Done, b)
    ensures SentInOrder(b, bodies, suffixes + [bytes])
  {
    ConcatSnoc(suffixes, bytes);
    Associate(EncodeRequest(a.request) + BodyPart(a, bodies), Concat(suffixes), bytes);
  }

  lemma OtherCallsSendNothing(a: Session, e: Event, b: Session)
    requires Step(a, e.call, e.outcome, b) && !TransferFailed(e)
    requires BodyOf(e) == [] && SuffixOf(e) == []
    ensures b.request == a.request && b.sent == a.sent && (b.state.SendingBody? <==> a.state.SendingBody?)
  {
  }

  /** One call extends the order, as long as the transfer it makes does not fail. */
  lemma StepSendsInOrder(a: Session, e: Event, b: Session, bodies: seq<seq<seq<Byte>>>, suffixes: seq<seq<Byte>>)
    requires SentInOrder(a, bodies, suffixes) && Step(a, e.call, e.outcome, b) && !TransferFailed(e)
    ensures b.request == a.request
    ensures SentInOrder(b, bodies + BodyOf(e), suffixes + SuffixOf(e))
  {
    if BodyOf(e) != [] {
      assert bodies == [] && suffixes == [];
      assert bodies + BodyOf(e) == [e.call.chunks] && suffixes + SuffixOf(e) == [];
      SendBodyInOrder(a, e.call.chunks, b);
    } else if SuffixOf(e) != [] {
      assert bodies + BodyOf(e) == bodies;
      SendSuffixInOrder(a, e.call.bytes, b, bodies, suffixes);
    } else {
      assert bodies + BodyOf(e) == bodies && suffixes + SuffixOf(e) == suffixes;
      OtherCallsSendNothing(a, e, b);
    }
  }

  /**
   * Over any run with no failed transfer, the send half holds the prefix, then the declared body
   * at most once, then the suffixes; and only sending the body leaves `SendingBody`.
   */
  lemma {:induction false} RunSendsInOrder(request: RequestPrefix, inbox: seq<Byte>, run: Run)
    requires run.Sound() && run.Unfailed() && run.First() == Begin(request, inbox)
    ensures run.Now().request == request
    ensures SentInOrder(run.Now(), run.Bodies(), run.Suffixes()) && |run.Bodies()| <= 1
    decreases run
  {
    if run.From? {
      BeginSends(request, inbox);
    } else {
      RunSendsInOrder(request, inbox, run.before);
      StepSendsInOrder(run.before.Now(), run.event, run.after, run.before.Bodies(), run.before.Suffixes());
    }
  }

  /** A session ready for its body knows where the body ends, and has not read any of it. */
  predicate Planned(s: Session) {
    s.state.PrefixReady? ==> s.plan.Some? && s.progress.Fresh?
  }

  lemma StepKeepsPlanned(a: Session, call: Call, outcome: Outcome, b: Session)
    requires Planned(a) && Step(a, call, outcome, b)
    ensures Planned(b)
  {
  }

  /** This holds in every run from the beginning, failed calls included. */
  lemma {:induction false} PrefixReadyHasPlan(request: RequestPrefix, inbox: seq<Byte>, run: Run)
    requires run.Sound() && run.First() == Begin(request, inbox)
    ensures Planned(run.Now())
    decreases run
  {
    if run.Then? {
      PrefixReadyHasPlan(request, inbox, run.before);
      StepKeepsPlanned(run.before.Now(), run.event.call, run.event.outcome, run.after);
    }
  }

  /** The calls a state lets through. */
  predicate Accepts(s: Session, call: Call) {
    match call
    case SendBody(_, _) => MaySendBody(s)
    case SendSuffix(_) => PastBody(s)
    case RecvPrefix => PastBody(s)
    case ReadBody(_, _) => s.state.PrefixReady? && s.plan.Some?
    case RecvSuffix => s.state.PrefixReady? || s.state.BodyReady?
  }

  /** A call is turned away exactly when the state does not let it through, and then nothing changes. */
  lemma RejectionIsByState(a: Session, call: Call, outcome: Outcome, b: Session)
    requires Step(a, call, outcome, b)
    ensures outcome.Rejected? <==> !Accepts(a, call)
    ensures outcome.Rejected? ==> b == a
  {
  }

  /** A declared body that was never opened is not skipped, unless it takes no bytes. */
  lemma UnopenedBodyIsNotSkipped(plan: BodyPlan, chunks: seq<seq<Byte>>, tail: seq<Byte>, after: seq<Byte>)
    requires Fits(plan, chunks) && Skips(Fresh, BodyWire(plan, chunks) + tail, after)
    ensures after == tail <==> plan.Absent? || plan == Sized(0)
  {
    var wire := BodyWire(plan, chunks);
    if wire == [] {
      assert [] + tail == tail;
    }
  }

  /** A sized view given back: the session recorded what was declared minus what was consumed. */
  lemma SizedBodyGivenBack(a: Session, delivered: seq<Byte>, cursor: ChunkedReader.Cursor, b: Session,
                           body: seq<Byte>, tail: seq<Byte>)
    requires ReadsBody(a, delivered, cursor, Done, b) && !a.plan.value.Chunked?
    requires a.inbox == body + tail && |body| == PlanSize(a.plan.value)
    ensures delivered <= body && b.progress == SizedLeft(|body| - |delivered|)
    ensures b.inbox == body[|delivered|..] + tail
  {
    var k := |delivered|;
    assert delivered == a.inbox[..k] == body[..k];
    assert b.inbox == a.inbox[k..] == body[k..] + tail;
  }

  /** A place in a complete body has nothing ahead exactly at its end or at its terminator. */
  lemma NothingAhead(cursor: ChunkedReader.Cursor, tail: seq<Byte>)
    requires cursor.Valid() && cursor.Ahead().Complete? && cursor.Ahead().rest == tail
    ensures cursor.Ahead().payload == [] <==> cursor.ended || (cursor.left == 0 && cursor.wire == TERMINATOR + tail)
  {
    var wire := cursor.wire;
    if cursor.left > 0 {
      LongerByTerminator(cursor.left, wire);
    } else if !cursor.ended && HeaderLen(wire[..2]) > 0 {
      LongerByTerminator(HeaderLen(wire[..2]), wire[2..]);
      assert (TERMINATOR + tail)[..2] == TERMINATOR;
    } else if !cursor.ended {
      assert wire[..2] == TERMINATOR && wire == TERMINATOR + wire[2..];
    }
  }

  /** The wire of a complete body is longer than what follows it by the terminator, and by all ahead. */
  lemma {:induction false} LongerByTerminator(left: nat, wire: seq<Byte>)
    requires Remaining(left, wire).Complete?
    ensures var reading := Remaining(left, wire);
      && |wire| >= |reading.rest| + |reading.payload| + 2
      && (left > 0 ==> reading.payload != [])
    decreases |wire|, left
  {
    if left > 0 {
      LongerByTerminator(0, wire[left..]);
    } else if HeaderLen(wire[..2]) > 0 {
      LongerByTerminator(HeaderLen(wire[..2]), wire[2..]);
    }
  }

  /** Draining from a place in a complete body reaches the tail exactly when nothing was ahead. */
  lemma DrainReachesTail(cursor: ChunkedReader.Cursor, tail: seq<Byte>, after: seq<Byte>)
    requires cursor.Valid() && cursor.Ahead().Complete? && cursor.Ahead().rest == tail
    requires Skips(ChunkedAt(cursor.ended), cursor.wire, after)
    ensures after == tail <==> cursor.Ahead().payload == []
  {
    NothingAhead(cursor, tail);
    if !cursor.ended {
      LongerByTerminator(cursor.left, cursor.wire);
      if cursor.Ahead().payload == [] {
        assert (TERMINATOR + tail)[2..] == tail;
      }
    }
  }

  /**
   * An unfinished chunk view given back between two chunks of a complete body: its drain can return
   * exactly when only the terminator is left to read.
   */
  lemma UnfinishedDrain(cursor: ChunkedReader.Cursor)
    requires cursor.AtHeader() && cursor.Ahead().Complete?
    ensures DrainReturns(ChunkedAt(false), cursor.wire) <==> cursor.Ahead().payload == []
  {
    NothingAhead(cursor, cursor.Ahead().rest);
    LongerByTerminator(0, cursor.wire);
    var len := HeaderLen(cursor.wire[..2]);
    if len > 0 {
      var rest := cursor.wire[2..];
      assert |rest| >= len;
      LongerByTerminator(len, rest);
    } else {
      assert cursor.wire[..2] == TERMINATOR && cursor.wire == TERMINATOR + cursor.wire[2..];
    }
  }

  /** A view into the body of a response: what it delivered and what is ahead of it are the body. */
  lemma ChunkViewKeepsTail(chunks: seq<seq<Byte>>, tail: seq<Byte>,
                           delivered: seq<Byte>, cursor: ChunkedReader.Cursor)
    requires AllSized(chunks) && ReadTo(Chunked, BodyWire(Chunked, chunks) + tail, delivered, cursor)
    ensures cursor.Ahead().Complete? && cursor.Ahead().rest == tail
    ensures delivered + cursor.Ahead().payload == Concat(chunks)
    ensures cursor.ended ==> delivered == Concat(chunks)
  {
    BodyRoundTrip(chunks, tail);
    assert delivered + [] == delivered;
  }

  /**
   * A view of the body was given back and the rest skipped: the suffix starts right after the body
   * exactly when the view had delivered all of it.
   */
  lemma SuffixAfterView(plan: BodyPlan, chunks: seq<seq<Byte>>, tail: seq<Byte>,
                        delivered: seq<Byte>, cursor: ChunkedReader.Cursor, after: seq<Byte>)
    requires Fits(plan, chunks) && ReadTo(plan, BodyWire(plan, chunks) + tail, delivered, cursor)
    requires Skips(Recorded(plan, cursor), cursor.wire, after)
    ensures after == tail <==> delivered == Concat(chunks)
    ensures AtEnd(plan, cursor) ==> delivered == Concat(chunks)
  {
    if plan.Chunked? {
      ChunkViewKeepsTail(chunks, tail, delivered, cursor);
      DrainReachesTail(cursor, tail, after);
      assert delivered + [] == delivered;
    } else {
      assert BodyWire(plan, chunks) == Concat(chunks);
      var body, k := Concat(chunks), |delivered|;
      assert delivered == (body + tail)[..k] == body[..k];
      assert after == (body + tail)[k..] == body[k..] + tail;
      if k == |body| {
        assert body[k..] + tail == tail;
      }
    }
  }

  /** Reading a prefix off a response that begins the inbox leaves its body next, and its plan known. */
  lemma PrefixThenBody(a: Session, b: Session, prefix: ResponsePrefix, body: seq<Byte>)
    requires a.inbox == EncodeResponse(prefix) + body && ReceivesPrefix(a, Done, b)
    ensures b.state.PrefixReady? && b.progress.Fresh? && b.inbox == body
    ensures b.plan.Some? && PlanOf(BodyInfo(prefix.headers), a.request.access) == Ok(b.plan.value)
  {
    ResponseRoundTrip(prefix, body);
  }

  /** A prefix at the front of the inbox is read, unless it declares a body in answer to `Head` or `Drop`. */
  lemma PrefixIsAccepted(a: Session, prefix: ResponsePrefix, body: seq<Byte>)
    requires a.state.WaitingResp? || a.state.SendingSuffix?
    requires a.inbox == EncodeResponse(prefix) + body
    ensures (exists b :: ReceivesPrefix(a, Done, b)) <==>
      BodyInfo(prefix.headers).NilBody? || (a.request.access != Head && a.request.access != Drop)
  {
    ResponseRoundTrip(prefix, body);
    PlanOfIs(prefix.headers, a.request.access);
    var plan := PlanOf(BodyInfo(prefix.headers), a.request.access);
    if plan.Ok? {
      var b := a.(state := PrefixReady, plan := Some(plan.value), progress := Fresh, inbox := body);
      assert ReceivesPrefix(a, Done, b);
    }
  }

  /** A response on its way: its prefix, the plan of its body, and the body with what follows. */
  datatype Response = Response(prefix: ResponsePrefix, plan: BodyPlan, body: seq<Byte>)

  /** How far a session has come with a response, given what its body view delivered and where it stood. */
  predicate Underway(s: Session, r: Response, delivered: seq<Byte>, view: Option<ChunkedReader.Cursor>) {
    match s.state
    case PrefixReady =>
      s.plan == Some(r.plan) && s.progress.Fresh? && s.inbox == r.body && delivered == [] && view.None?
    case BodyReady =>
      && s.plan == Some(r.plan) && view.Some? && s.progress == Recorded(r.plan, view.value)
      && s.inbox == view.value.wire && ReadTo(r.plan, r.body, delivered, view.value)
    case SuffixReady =>
      if view.None? then delivered == [] && Skips(Fresh, r.body, s.inbox)
      else
        && ReadTo(r.plan, r.body, delivered, view.value)
        && Skips(Recorded(r.plan, view.value), view.value.wire, s.inbox)
    case Terminated => false
    case _ => s.inbox == EncodeResponse(r.prefix) + r.body && delivered == [] && view.None?
  }

  lemma SendingKeepsUnderway(a: Session, r: Response, delivered: seq<Byte>, view: Option<ChunkedReader.Cursor>,
                             e: Event, b: Session)
    requires Underway(a, r, delivered, view) && Step(a, e.call, e.outcome, b)
    requires e.call.SendBody? || e.call.SendSuffix?
    ensures Underway(b, r, delivered, view) && b.request == a.request
  {
  }

  lemma PrefixKeepsUnderway(a: Session, r: Response, delivered: seq<Byte>, view: Option<ChunkedReader.Cursor>,
                            outcome: Outcome, b: Session)
    requires Underway(a, r, delivered, view) && ReceivesPrefix(a, outcome, b) && !outcome.Failed?
    requires PlanOf(BodyInfo(r.prefix.headers), a.request.access) == Ok(r.plan)
    ensures Underway(b, r, delivered, view) && b.request == a.request
  {
    if outcome.Done? {
      PrefixThenBody(a, b, r.prefix, r.body);
    }
  }

  lemma BodyKeepsUnderway(a: Session, r: Response, delivered: seq<Byte>, view: Option<ChunkedReader.Cursor>,
                          more: seq<Byte>, cursor: ChunkedReader.Cursor, outcome: Outcome, b: Session)
    requires Underway(a, r, delivered, view) && ReadsBody(a, more, cursor, outcome, b) && !outcome.Failed?
    ensures b.request == a.request
    ensures if outcome.Done? then Underway(b, r, delivered + more, Some(cursor)) else Underway(b, r, delivered, view)
  {
    if outcome.Done? {
      assert delivered + more == more;
    }
  }

  lemma SuffixKeepsUnderway(a: Session, r: Response, delivered: seq<Byte>, view: Option<ChunkedReader.Cursor>,
                            outcome: Outcome, b: Session)
    requires Underway(a, r, delivered, view) && OpensSuffix(a, outcome, b) && !outcome.Failed?
    ensures Underway(b, r, delivered, view) && b.request == a.request
  {
  }

  lemma StepKeepsUnderway(a: Session, r: Response, delivered: seq<Byte>, view: Option<ChunkedReader.Cursor>,
                          e: Event, b: Session)
    requires Underway(a, r, delivered, view) && Step(a, e.call, e.outcome, b) && !ReadFailed(e)
    requires PlanOf(BodyInfo(r.prefix.headers), a.request.access) == Ok(r.plan)
    ensures b.request == a.request
    ensures Underway(b, r, delivered + DeliveredBy(e),
      if e.call.ReadBody? && e.outcome.Done? then Some(e.call.cursor) else view)
  {
    assert delivered + [] == delivered;
    match e.call
    case SendBody(_, _) => SendingKeepsUnderway(a, r, delivered, view, e, b);
    case SendSuffix(_) => SendingKeepsUnderway(a, r, delivered, view, e, b);
    case RecvPrefix => PrefixKeepsUnderway(a, r, delivered, view, e.outcome, b);
    case ReadBody(more, cursor) => BodyKeepsUnderway(a, r, delivered, view, more, cursor, e.outcome, b);
    case RecvSuffix => SuffixKeepsUnderway(a, r, delivered, view, e.outcome, b);
  }

  lemma {:induction false} RunIsUnderway(request: RequestPrefix, r: Response, run: Run)
    requires run.Sound() && run.ReadsUnfailed()
    requires run.First() == Begin(request, EncodeResponse(r.prefix) + r.body)
    requires BodyInfo(r.prefix.headers).NilBody? || (request.access != Head && request.access != Drop)
    requires PlanFrom(BodyInfo(r.prefix.headers)) == Ok(r.plan)
    ensures Underway(run.Now(), r, run.Delivered(), run.View()) && run.Now().request == request
    decreases run
  {
    PlanOfIs(r.prefix.headers, request.access);
    if run.Then? {
      RunIsUnderway(request, r, run.before);
      StepKeepsUnderway(run.before.Now(), r, run.before.Delivered(), run.before.View(), run.event, run.after);
    }
  }

  /**
   * In every run in which no reading call failed, whatever else was called, turned away or failed to
   * send: once the suffix is open it starts at the first byte after the body exactly when all of the
   * body was delivered, through a view if it is chunked. In particular it does after a view was read
   * to its end, or when no body was declared.
   */
  lemma ResponseRun(request: RequestPrefix, prefix: ResponsePrefix, plan: BodyPlan, chunks: seq<seq<Byte>>,
                    tail: seq<Byte>, run: Run)
    requires run.Sound() && run.ReadsUnfailed() && run.Now().state.SuffixReady?
    requires BodyInfo(prefix.headers).NilBody? || (request.access != Head && request.access != Drop)
    requires PlanFrom(BodyInfo(prefix.headers)) == Ok(plan) && Fits(plan, chunks)
    requires run.First() == Begin(request, EncodeResponse(prefix) + (BodyWire(plan, chunks) + tail))
    ensures run.Now().inbox == tail <==> run.Delivered() == Concat(chunks) && (plan.Chunked? ==> run.View().Some?)
    ensures plan.Absent? || (run.View().Some? && AtEnd(plan, run.View().value)) ==>
      run.Delivered() == Concat(chunks) && run.Now().inbox == tail
  {
    var r := Response(prefix, plan, BodyWire(plan, chunks) + tail);
    RunIsUnderway(request, r, run);
    if run.View().Some? {
      SuffixAfterView(plan, chunks, tail, run.Delivered(), run.View().value, run.Now().inbox);
    } else {
      UnopenedBodyIsNotSkipped(plan, chunks, tail, run.Now().inbox);
    }
  }
}
