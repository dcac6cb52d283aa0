/** Message prefixes: two or three MessagePack values in a row, read without touching what follows. */
module Prefix {
  import opened Wrappers
  import opened Octets
  import opened Channels
  import opened Writers
  import opened Copy
  import opened MessagePack
  import opened Headers

  datatype AccessMethod = Head | View | Post | Drop | Push | Pull | Call

  /** The bit of a method on the wire. */
  function MethodCode(m: AccessMethod): U16 {
    match m
    case Head => 0
    case View => 0x01
    case Post => 0x02
    case Drop => 0x04
    case Push => 0x10
    case Pull => 0x20
    case Call => 0x40
  }

  function MethodFromCode(code: int): Option<AccessMethod> {
    if code == 0 then Some(Head)
    else if code == 0x01 then Some(AccessMethod.View)
    else if code == 0x02 then Some(Post)
    else if code == 0x04 then Some(Drop)
    else if code == 0x10 then Some(Push)
    else if code == 0x20 then Some(Pull)
    else if code == 0x40 then Some(Call)
    else None
  }

  /** A code names a method exactly when it is some method's bit: unknown codes are never folded. */
  lemma MethodCodesAreExact(code: int)
    ensures forall m :: MethodFromCode(code) == Some(m) <==> MethodCode(m) == code
  {
  }

  datatype RequestPrefix = RequestPrefix(access: AccessMethod, location: Text, headers: Option<Headers>)

  datatype ResponsePrefix = ResponsePrefix(status: U16, headers: Option<Headers>)

  function EncodeRequest(p: RequestPrefix): seq<Byte> {
    EncodeU16(MethodCode(p.access)) + EncodeText(p.location) + EncodeHeaders(p.headers)
  }

  function EncodeResponse(p: ResponsePrefix): seq<Byte> {
    EncodeU16(p.status) + EncodeHeaders(p.headers)
  }

  /** An unsigned integer below `limit`, in any width. */
  function DecodeNumber(bs: seq<Byte>, limit: nat): Decoded<nat> {
    match DecodeScalar(bs)
    case Err(e) => Err(e)
    case Ok((Int(n), rest)) => if 0 <= n < limit then Ok((n, rest)) else Err(OutOfRange)
    case Ok(_) => Err(DecodeError.Unsupported)
  }

  function DecodeText(bs: seq<Byte>): Decoded<Text> {
    match DecodeScalar(bs)
    case Err(e) => Err(e)
    case Ok((Utf8(t), rest)) => Ok((t, rest))
    case Ok(_) => Err(DecodeError.Unsupported)
  }

  function DecodeMethod(bs: seq<Byte>): Decoded<AccessMethod> {
    match DecodeNumber(bs, 0x100)
    case Err(e) => Err(e)
    case Ok((code, rest)) =>
      if MethodFromCode(code).None? then Err(UnknownMethod) else Ok((MethodFromCode(code).value, rest))
  }

  function DecodeRequest(bs: seq<Byte>): Decoded<RequestPrefix> {
    match DecodeMethod(bs)
    case Err(e) => Err(e)
    case Ok((access, afterMethod)) =>
      match DecodeText(afterMethod)
      case Err(e) => Err(e)
      case Ok((location, afterLocation)) =>
        match DecodeHeaders(afterLocation)
        case Err(e) => Err(e)
        case Ok((headers, rest)) => Ok((RequestPrefix(access, location, headers), rest))
  }

  function DecodeResponse(bs: seq<Byte>): Decoded<ResponsePrefix> {
    match DecodeNumber(bs, U16_LIMIT)
    case Err(e) => Err(e)
    case Ok((status, afterStatus)) =>
      match DecodeHeaders(afterStatus)
      case Err(e) => Err(e)
      case Ok((headers, rest)) => Ok((ResponsePrefix(status, headers), rest))
  }

  lemma MethodRoundTrip(m: AccessMethod, tail: seq<Byte>)
    ensures DecodeMethod(EncodeU16(MethodCode(m)) + tail) == Ok((m, tail))
  {
    U16RoundTrip(MethodCode(m), tail);
  }

  lemma LocationRoundTrip(t: Text, tail: seq<Byte>)
    ensures DecodeText(EncodeText(t) + tail) == Ok((t, tail))
  {
    TextRoundTrip(t, tail);
  }

  /** A request prefix comes back from its bytes followed by anything, which is left untouched. */
  lemma RequestRoundTrip(p: RequestPrefix, tail: seq<Byte>)
    ensures DecodeRequest(EncodeRequest(p) + tail) == Ok((p, tail))
  {
    var m, l, h := EncodeU16(MethodCode(p.access)), EncodeText(p.location), EncodeHeaders(p.headers);
    Associate(m + l, h, tail);
    Associate(m, l, h + tail);
    MethodRoundTrip(p.access, l + (h + tail));
    LocationRoundTrip(p.location, h + tail);
    HeadersRoundTrip(p.headers, tail);
  }

  /** So does a response prefix, whatever its status. */
  lemma ResponseRoundTrip(p: ResponsePrefix, tail: seq<Byte>)
    ensures DecodeResponse(EncodeResponse(p) + tail) == Ok((p, tail))
  {
    var s, h := EncodeU16(p.status), EncodeHeaders(p.headers);
    Associate(s, h, tail);
    U16RoundTrip(p.status, h + tail);
    HeadersRoundTrip(p.headers, tail);
  }

  /** No prefix is the beginning of another: equal wires carry equal prefixes and equal bodies. */
  lemma RequestsDoNotOverlap(p: RequestPrefix, q: RequestPrefix, t: seq<Byte>, u: seq<Byte>)
    requires EncodeRequest(p) + t == EncodeRequest(q) + u
    ensures p == q && t == u
  {
    RequestRoundTrip(p, t);
    RequestRoundTrip(q, u);
  }

  lemma ResponseExtends(bs: seq<Byte>, more: seq<Byte>)
    requires DecodeResponse(bs).Ok?
    ensures DecodeResponse(bs + more) == Ok((DecodeResponse(bs).value.0, DecodeResponse(bs).value.1 + more))
  {
    ScalarExtends(bs, more);
    HeadersExtend(DecodeNumber(bs, U16_LIMIT).value.1, more);
  }

  /** A prefix that broke off does not decode, wherever it broke off. */
  lemma TornPrefixFails(p: ResponsePrefix, torn: seq<Byte>)
    requires torn < EncodeResponse(p)
    ensures DecodeResponse(torn).Err?
  {
    var whole := EncodeResponse(p);
    var more := whole[|torn|..];
    assert whole == torn + more && whole + [] == whole;
    ResponseRoundTrip(p, []);
    if DecodeResponse(torn).Ok? {
      ResponseExtends(torn, more);
    }
  }

  datatype WireError = Io | Malformed(error: DecodeError)

  /** Write one more value behind what was written so far. */
  method WriteNext(bytes: seq<Byte>, tx: OutPort, ghost start: Delivery, ghost before: seq<Event>, done: seq<Byte>)
    returns (ok: bool, written: seq<Byte>)
    requires tx.Valid() && tx.Sent() == start.Plus(done) && tx.Trace() == before + Outs(done)
    modifies tx.Views(), tx.Base(), tx.Base().channel
    ensures tx.Valid() && tx.Sent() == start.Plus(written) && tx.Trace() == before + Outs(written)
    ensures done <= written <= done + bytes && (ok <==> written == done + bytes)
    ensures tx.Steady() && tx.Into? ==> ok
  {
    var more;
    ok, more := WriteBody(bytes, tx);
    PutTwice(start, before, done, more);
    written := done + more;
  }

  /** The three values of a request prefix, one after the other into the same write half. */
  method WriteRequestPrefix(prefix: RequestPrefix, tx: OutPort) returns (ok: bool, written: seq<Byte>)
    requires tx.Valid()
    modifies tx.Views(), tx.Base(), tx.Base().channel
    ensures tx.Valid() && tx.Sent() == old(tx.Sent()).Plus(written)
    ensures tx.Trace() == old(tx.Trace()) + Outs(written)
    ensures written <= EncodeRequest(prefix) && (ok <==> written == EncodeRequest(prefix))
    ensures tx.Steady() && tx.Into? ==> ok
  {
    var m, l := EncodeU16(MethodCode(prefix.access)), EncodeText(prefix.location);
    ok, written := WriteBody(m, tx);
    if ok {
      ok, written := WriteNext(l, tx, old(tx.Sent()), old(tx.Trace()), written);
    }
    if ok {
      ok, written := WriteNext(EncodeHeaders(prefix.headers), tx, old(tx.Sent()), old(tx.Trace()), written);
    }
  }

  method WriteResponsePrefix(prefix: ResponsePrefix, tx: OutPort) returns (ok: bool, written: seq<Byte>)
    requires tx.Valid()
    modifies tx.Views(), tx.Base(), tx.Base().channel
    ensures tx.Valid() && tx.Sent() == old(tx.Sent()).Plus(written)
    ensures tx.Trace() == old(tx.Trace()) + Outs(written)
    ensures written <= EncodeResponse(prefix) && (ok <==> written == EncodeResponse(prefix))
    ensures tx.Steady() && tx.Into? ==> ok
  {
    ok, written := WriteBody(EncodeU16(prefix.status), tx);
    if ok {
      ok, written := WriteNext(EncodeHeaders(prefix.headers), tx, old(tx.Sent()), old(tx.Trace()), written);
    }
  }
}
