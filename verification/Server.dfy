/** Serving one channel from its first byte: prefix, top router, handler. */
module Server {
  import opened Wrappers
  import opened Octets
  import opened Demands
  import opened Channels
  import opened Readers
  import opened Writers
  import opened MessagePack
  import opened Prefix
  import opened PrefixReader
  import opened Message
  import opened BodyFraming
  import opened BodyView
  import opened Reply
  import opened ListRouter
  import opened RpcCall

  /** The service a request runs, if any: calls only, by the way the routers take. */
  function Reached<S>(routes: RouteValues<ListRouter.Interface<S>>, prefix: RequestPrefix): Option<S> {
    match Route(routes, Chars(prefix.location))
    case Service(service) => if prefix.access.Call? then Some(service) else None
    case _ => None
  }

  /** Past the top router, what is left of the way is the handler's own. */
  method TopHandler<S>(routes: RouteValues<ListRouter.Interface<S>>, location: string)
    returns (handler: Option<ListRouter.Interface<S>>)
    ensures handler.None? <==> MatchRoute(routes, location).None?
    ensures handler.Some? ==>
      Route(routes, location) == Served(handler.value.path, handler.value.services, location)
  {
    var best := MatchRoute(routes, location);
    if best.None? {
      return None;
    }
    MatchedDispatchRuns(routes, location);
    return Some(DispatchAt(routes, best.value.0).handler);
  }

  /** What serving a channel came to: a prefix that did not decode, no route, or a call handled. */
  datatype Serving<S> = BadPrefix | NoRoute(location: Text) | Handled(done: bool, ran: Option<S>)

  /**
   * A channel served: what came of it, what a handler answered and did, whether no write of the
   * answer failed, and what the service's decoder was given.
   */
  datatype Outcome<S> = Outcome(served: Serving<S>, answer: Answer, sent: bool, trace: Trace, intake: Intake)

  /**
   * What handing a decoded request over may come to. Where no handler is reached nothing happens;
   * a handler runs the service the routing names and answers as its conduct says, and where there
   * is none it answers 404 to a call and 405 to anything else.
   */
  ghost predicate HandsOver<S>(routes: RouteValues<ListRouter.Interface<S>>, refusal: Text, prefix: RequestPrefix,
                               conduct: Conduct, before: Ledger, o: Outcome<S>, after: Ledger)
  {
    match o.served
    case BadPrefix => false
    case NoRoute(location) =>
      location == prefix.location && MatchRoute(routes, Chars(location)).None? && after == before
    case Handled(done, ran) =>
      && MatchRoute(routes, Chars(prefix.location)).Some? && Happened(before, o.trace.Acts(), after)
      && o.trace.Sound(ran.Some?, o.answer, o.sent) && (done <==> o.sent && o.answer.Finished())
      && ran == Reached(routes, prefix)
      && (!prefix.access.Call? ==> o.answer == Refusal(STATUS_METHOD_NOT_ALLOWED, refusal))
      && (prefix.access.Call? && ran.None? ==> o.answer == Refusal(STATUS_NOT_FOUND, prefix.location))
      && (ran.Some? ==>
            && Answers(conduct, o.answer) && o.trace.request == [Consumed(o.intake.taken)]
            && o.intake.Of(ServerFraming(Table(prefix.headers)), before.pending))
      && (o.trace.closing ==> |after.pending| < DRAIN_STEP)
  }

  /**
   * What it comes to besides when nothing fails: on a steady send half the reply is written whole, on
   * a steady receive half the drain ends with the peer and a greedy decoder gets the body.
   */
  predicate Undisturbed<S>(prefix: RequestPrefix, before: Ledger, o: Outcome<S>, txSteady: bool, rxSteady: bool,
                           wishes: seq<Wish>)
  {
    o.served.Handled? ==>
      && (txSteady ==> o.sent) && (rxSteady ==> o.trace.closing)
      && (rxSteady && Greedy(wishes) && o.served.ran.Some? ==>
            o.intake.KeepsUp(ServerFraming(Table(prefix.headers)), before.pending, |wishes|))
  }

  /** A request that is not a call runs nothing, and its caller reads 405 and the refusal if no write failed. */
  lemma OtherMethodsAreRefused<S>(routes: RouteValues<ListRouter.Interface<S>>, refusal: Text, prefix: RequestPrefix,
                                  conduct: Conduct, before: Ledger, o: Outcome<S>, after: Ledger)
    requires HandsOver(routes, refusal, prefix, conduct, before, o, after)
    requires o.served.Handled? && !prefix.access.Call?
    ensures o.served.ran.None?
    ensures CallerReads(SentBy(o.trace.Acts())) == if o.sent then Some((405, refusal)) else None
  {
    TraceSends(o.trace, false, o.answer, o.sent);
    CallerReadsIfSent(o.trace.reply, o.answer, o.sent);
  }

  /**
   * A channel whose drain the closing peer ended was read to its end exactly when what the request left
   * of it is a whole number of steps.
   */
  lemma HandledToTheEnd<S>(routes: RouteValues<ListRouter.Interface<S>>, refusal: Text, prefix: RequestPrefix,
                           conduct: Conduct, before: Ledger, o: Outcome<S>, after: Ledger)
    requires HandsOver(routes, refusal, prefix, conduct, before, o, after)
    requires o.served.Handled? && o.trace.closing
    ensures after.pending == [] <==> (|before.pending| - |ReceivedBy(o.trace.request)|) % 4096 == 0
  {
    ReadToTheEnd(before, o.trace, o.served.ran.Some?, o.answer, o.sent, after);
  }

  /** What serving a channel may come to: the prefix is read, and what follows it is handed over. */
  ghost predicate Serves<S>(routes: RouteValues<ListRouter.Interface<S>>, refusal: Text, conduct: Conduct,
                            before: Ledger, o: Outcome<S>, after: Ledger)
  {
    var decoded := DecodeRequest(before.pending);
    if o.served.BadPrefix? then |after.pending| <= |before.pending| && after == ReadDown(before, |after.pending|)
    else decoded.Ok? && HandsOver(routes, refusal, decoded.value.0, conduct, AfterPrefix(before), o, after)
  }

  /** A channel from which all but `left` pending bytes were read. */
  function ReadDown(before: Ledger, left: nat): Ledger {
    var n := SatSub(|before.pending|, left);
    before.(pending := before.pending[n..], trace := before.trace + Ins(before.pending[..n]))
  }

  /** The prefix read off, and nothing else. */
  function AfterPrefix(before: Ledger): Ledger
    requires DecodeRequest(before.pending).Ok?
  {
    ReadDown(before, |DecodeRequest(before.pending).value.1|).(pending := DecodeRequest(before.pending).value.1)
  }

  /** Read the prefix of a request: what is left is what follows it, and nothing else happened. */
  method ReadPrefix(tx: ByteSink, rx: ByteSource) returns (read: Result<RequestPrefix, WireError>)
    requires OpenHalves(tx, rx)
    modifies rx, rx.channel
    ensures |rx.pending| <= |old(rx.pending)|
    ensures LedgerOf(tx, rx) == ReadDown(old(LedgerOf(tx, rx)), |rx.pending|)
    ensures read.Ok? ==> DecodeRequest(old(rx.pending)) == Ok((read.value, rx.pending))
    ensures rx.steady && read.Err? ==> DecodeRequest(old(rx.pending)).Err?
  {
    read := ReadRequestPrefix(Raw(rx));
    ghost var bytes := AdvancedFront(old(Raw(rx).Stands()), Raw(rx).Stands());
    assert old(rx.pending) == bytes + rx.pending;
    assert Raw(rx).Pending() == rx.pending;
  }

  /** Route a request whose prefix was read, and hand the channel over. */
  method HandOver<S>(routes: RouteValues<ListRouter.Interface<S>>, refusal: Text, prefix: RequestPrefix,
                     tx: ByteSink, rx: ByteSource, wishes: seq<Wish>, conduct: Conduct)
    returns (served: Serving<S>, ghost outcome: Outcome<S>)
    requires OpenHalves(tx, rx)
    modifies tx, rx, tx.channel
    ensures outcome.served == served
    ensures HandsOver(routes, refusal, prefix, conduct, old(LedgerOf(tx, rx)), outcome, LedgerOf(tx, rx))
    ensures Undisturbed(prefix, old(LedgerOf(tx, rx)), outcome, tx.steady, rx.steady, wishes)
    ensures tx.closed <==> served.Handled?
  {
    ghost var answer, sent, trace, intake := *, *, *, *;
    var handler := TopHandler(routes, Chars(prefix.location));
    if handler.None? {
      return NoRoute(prefix.location), Outcome(NoRoute(prefix.location), answer, sent, trace, intake);
    }
    var done, ran;
    done, ran, answer, sent, trace, intake :=
      Handle(prefix.access, handler.value.path, handler.value.services, prefix.location, refusal,
             Table(prefix.headers), tx, rx, wishes, conduct);
    served := Handled(done, ran);
    outcome := Outcome(served, answer, sent, trace, intake);
  }

  /** Serve one channel from its first byte. */
  method ServeChannel<S>(routes: RouteValues<ListRouter.Interface<S>>, refusal: Text,
                         tx: ByteSink, rx: ByteSource, wishes: seq<Wish>, conduct: Conduct)
    returns (served: Serving<S>, ghost outcome: Outcome<S>)
    requires OpenHalves(tx, rx)
    modifies tx, rx, tx.channel
    ensures outcome.served == served
    ensures Serves(routes, refusal, conduct, old(LedgerOf(tx, rx)), outcome, LedgerOf(tx, rx))
    ensures rx.steady && DecodeRequest(old(rx.pending)).Ok? ==>
      && !served.BadPrefix?
      && Undisturbed(DecodeRequest(old(rx.pending)).value.0, AfterPrefix(old(LedgerOf(tx, rx))), outcome,
                     tx.steady, rx.steady, wishes)
    ensures tx.closed <==> served.Handled?
  {
    var read := ReadPrefix(tx, rx);
    if read.Err? {
      served, outcome := BadPrefix, *;
      outcome := outcome.(served := BadPrefix);
    } else {
      served, outcome := HandOver(routes, refusal, read.value, tx, rx, wishes, conduct);
    }
  }

  /**
   * One turn of a listener: accept a channel on which `inbox` is to come, and serve it; `put` is what
   * was written. The listener goes on only when a handler was reached and came to the end of its reply.
   */
  method ServeNext<S>(routes: RouteValues<ListRouter.Interface<S>>, refusal: Text, inbox: seq<Byte>, steady: bool,
                      wishes: seq<Wish>, conduct: Conduct)
    returns (goesOn: bool, put: seq<Byte>, ghost outcome: Outcome<S>, ghost after: Ledger)
    ensures Serves(routes, refusal, conduct, Ledger([], inbox, []), outcome, after)
    ensures goesOn <==> outcome.served.Handled? && outcome.sent && outcome.answer.Finished()
    ensures put == after.sent
    ensures steady && DecodeRequest(inbox).Ok? ==>
      && !outcome.served.BadPrefix?
      && Undisturbed(DecodeRequest(inbox).value.0, AfterPrefix(Ledger([], inbox, [])), outcome, true, true, wishes)
  {
    var tx, rx := OpenChannel(inbox, steady);
    var served;
    served, outcome := ServeChannel(routes, refusal, tx, rx, wishes, conduct);
    after := LedgerOf(tx, rx);
    goesOn, put := served.Handled? && served.done, tx.written;
  }
}
