/** The messages of a unary call, and that each of them reads back at the other end. */
module Reply {
  import opened Wrappers
  import opened Octets
  import opened ChunkFormat
  import opened MessagePack
  import opened Headers
  import opened Prefix
  import opened BodyFraming
  import opened Message

  const BODY_TYPE: U16OrStr := Num(0xa2)
  const TYPE_MESSAGE_PACK: U16 := 0x01

  const STATUS_OK: U16 := 200
  const STATUS_NOT_FOUND: U16 := 404
  const STATUS_METHOD_NOT_ALLOWED: U16 := 405

  lemma {:induction false} DecimalIsShort(n: nat)
    ensures |Decimal(n)| <= n / 10 + 1
  {
    if n >= 10 {
      DecimalIsShort(n / 10);
    }
  }

  lemma {:induction false} AsciiIsUtf8(bs: seq<Byte>)
    requires forall i :: 0 <= i < |bs| ==> bs[i] < 0x80
    ensures ValidUtf8(bs)
  {
    if bs != [] {
      AsciiIsUtf8(bs[1..]);
    }
  }

  /** A length as a header carries it. */
  function DecimalText(n: nat): Text
    requires n < U32_LIMIT
  {
    DecimalIsShort(n);
    DecimalParses(n);
    AsciiIsUtf8(Decimal(n));
    Decimal(n)
  }

  /** A table of one header. */
  function Single(key: U16OrStr, val: U16OrStr): Headers {
    Insert([], key, val)
  }

  /** The headers of a chunked business body, in a call and in a successful reply. */
  function ChunkedHeaders(): Headers {
    var transfer := Single(BODY_TRANSFER, Num(TRANSFER_CHUNKED));
    InsertSorts(transfer, BODY_TYPE, Num(TYPE_MESSAGE_PACK));
    Insert(transfer, BODY_TYPE, Num(TYPE_MESSAGE_PACK))
  }

  lemma ChunkedHeadersSayChunked()
    ensures BodyInfo(Some(ChunkedHeaders())) == ChunkedData
    ensures !HasBoth(ChunkedHeaders()) && !HexSized(ChunkedHeaders())
  {
    var transfer := Single(BODY_TRANSFER, Num(TRANSFER_CHUNKED));
    InsertLaw(transfer, BODY_TYPE, Num(TYPE_MESSAGE_PACK), BODY_SIZE);
    InsertLaw(transfer, BODY_TYPE, Num(TYPE_MESSAGE_PACK), BODY_TRANSFER);
    InsertLaw([], BODY_TRANSFER, Num(TRANSFER_CHUNKED), BODY_SIZE);
    InsertLaw([], BODY_TRANSFER, Num(TRANSFER_CHUNKED), BODY_TRANSFER);
  }

  /**
   * What a chunked value looks like on the wire when `sent` tells whether no write failed: all of it
   * and closed, or a front of it that no reader takes for finished.
   */
  predicate FramedAs(value: seq<Byte>, wire: seq<Byte>, sent: bool) {
    if sent then Deframe(wire) == Complete(value, [])
    else !Deframe(wire).Complete? && Deframe(wire).payload <= value
  }

  function CallPrefix(location: Text): RequestPrefix {
    RequestPrefix(Call, location, Some(ChunkedHeaders()))
  }

  function OkPrefix(): ResponsePrefix {
    ResponsePrefix(STATUS_OK, Some(ChunkedHeaders()))
  }

  /** A reply that is a message: its length is declared, its type is not. */
  function StatusPrefix(status: U16, message: Text): ResponsePrefix {
    ResponsePrefix(status, Some(Single(BODY_SIZE, Str(DecimalText(|message|)))))
  }

  /** The printed length reads as that length, and as no body when it is zero. */
  lemma StatusPrefixDeclares(status: U16, message: Text)
    ensures var headers := StatusPrefix(status, message).headers.value;
      && BodySizeOf(headers) == Some(|message|)
      && PlanOf(BodyInfo(Some(headers)), Call) == Ok(if message == [] then Absent else Sized(|message|))
  {
    var text := DecimalText(|message|);
    DecimalRoundTrip(|message|);
    InsertLaw([], BODY_SIZE, Str(text), BODY_SIZE);
    SizeTextDeclares(Single(BODY_SIZE, Str(text)), text, |message|);
  }

  /** The caller reads an error reply whole: its status, and its message to the last byte. */
  lemma StatusReplyReadsBack(status: U16, message: Text, tail: seq<Byte>)
    ensures var decoded := DecodeResponse(EncodeResponse(StatusPrefix(status, message)) + message + tail);
      && decoded.Ok? && decoded.value.0.status == status && decoded.value.0.headers.Some?
      && BodySizeOf(decoded.value.0.headers.value) == Some(|message|)
      && var plan := PlanOf(BodyInfo(decoded.value.0.headers), Call);
      plan.Ok? && ReadWhole(plan.value, decoded.value.1) == Some((message, tail))
  {
    StatusPrefixDeclares(status, message);
    assert Concat([message]) == message + Concat([message][1..]) == message;
    ResponseReadsBack(StatusPrefix(status, message), Call, [message], tail);
  }

  /** And a successful one: the status and every byte of the encoded value. */
  lemma OkReplyReadsBack(wire: seq<Byte>, value: seq<Byte>, tail: seq<Byte>)
    requires Deframe(wire) == Complete(value, [])
    ensures var decoded := DecodeResponse(EncodeResponse(OkPrefix()) + wire + tail);
      && decoded.Ok? && decoded.value.0.status == STATUS_OK
      && PlanOf(BodyInfo(decoded.value.0.headers), Call) == Ok(Chunked)
      && ReadWhole(Chunked, decoded.value.1) == Some((value, tail))
  {
    var chunks := DeframeIsExact(wire);
    assert wire == Frames(chunks) + TERMINATOR + [] == BodyWire(Chunked, chunks);
    ChunkedHeadersSayChunked();
    ResponseReadsBack(OkPrefix(), Call, chunks, tail);
  }

  /** A call reaches the server whole: both ends take its body for chunked. */
  lemma CallReadsBack(location: Text, chunks: seq<seq<Byte>>, tail: seq<Byte>)
    requires AllSized(chunks)
    ensures var decoded := DecodeRequest(EncodeRequest(CallPrefix(location)) + (Frames(chunks) + TERMINATOR) + tail);
      && decoded.Ok? && decoded.value.0 == CallPrefix(location)
      && ServerReads(ServerFraming(ChunkedHeaders()), decoded.value.1) == Some((Concat(chunks), tail))
  {
    ChunkedHeadersSayChunked();
    RequestReadsBack(CallPrefix(location), chunks, tail);
  }

  /** One short header as it goes on the wire. */
  lemma NumberPair(key: U16, val: U16)
    requires 0x80 <= key < 0x100 && val < 0x80
    ensures EncodePair(Entry(Num(key), Num(val))) == [0xcc, key, val]
  {
    assert Span(1) == 256 * Span(0);
    assert BigEndian(key, 1) == BigEndian(key / 256, 0) + [key % 256] == [key];
  }

  lemma TwoEntries(a: Entry, b: Entry)
    ensures EncodeEntries([a]) == EncodePair(a) && EncodeEntries([a, b]) == EncodePair(a) + EncodePair(b)
  {
    assert [a][..0] == [] && [a, b][..1] == [a];
    assert EncodeEntries([a]) == [] + EncodePair(a) == EncodePair(a);
  }

  lemma ChunkedHeadersAre()
    ensures ChunkedHeaders() == [Entry(Num(0xa2), Num(0x01)), Entry(Num(0xa5), Num(0x20))]
  {
  }

  lemma ChunkedHeadersOnTheWire()
    ensures EncodeHeaders(Some(ChunkedHeaders())) == [0x82, 0xcc, 0xa2, 0x01, 0xcc, 0xa5, 0x20]
  {
    ChunkedHeadersAre();
    NumberPair(0xa2, 0x01);
    NumberPair(0xa5, 0x20);
    TwoEntries(Entry(Num(0xa2), Num(0x01)), Entry(Num(0xa5), Num(0x20)));
    assert EncodeMapHeader(2) == [0x82];
  }

  /** A call to `/a/b` begins with these bytes: the method, the location, and two headers in key order. */
  lemma CallOnTheWire(location: Text)
    requires location == [47, 97, 47, 98]
    ensures EncodeRequest(CallPrefix(location)) ==
      [0x40] + [0xa4, 47, 97, 47, 98] + [0x82, 0xcc, 0xa2, 0x01, 0xcc, 0xa5, 0x20]
  {
    ChunkedHeadersOnTheWire();
    CallStarts(location);
  }

  lemma CallStarts(location: Text)
    requires |location| == 4
    ensures EncodeText(location) == [0xa4] + location && EncodeU16(MethodCode(Call)) == [0x40]
  {
  }

  lemma SizeHeaderOnTheWire()
    ensures EncodeHeaders(Some(Single(BODY_SIZE, Str(DecimalText(1))))) == [0x81, 0xcc, 0xa1, 0xa1, 49]
  {
    var size := Entry(Num(0xa1), Str(DecimalText(1)));
    assert Single(BODY_SIZE, Str(DecimalText(1))) == [size];
    KeyOfSize();
    TwoEntries(size, size);
    assert EncodeMapHeader(1) == [0x81];
  }

  lemma NotFoundOnTheWire()
    ensures EncodeU16(404) == [0xcd, 0x01, 0x94]
  {
    TwoBytes(404);
  }

  /** A refusal with status 404 and the message `x` is these bytes: the status, one header, the message. */
  lemma RefusalOnTheWire(message: Text)
    requires message == [120]
    ensures EncodeResponse(StatusPrefix(404, message)) + message ==
      [0xcd, 0x01, 0x94] + [0x81, 0xcc, 0xa1, 0xa1, 49] + [120]
  {
    SizeHeaderOnTheWire();
    NotFoundOnTheWire();
  }

  lemma KeyOfSize()
    ensures EncodeKey(Num(0xa1)) == [0xcc, 0xa1] && EncodeKey(Str(DecimalText(1))) == [0xa1, 49]
  {
    assert Span(1) == 256 * Span(0);
    assert BigEndian(0xa1, 1) == BigEndian(0, 0) + [0xa1] == [0xa1];
    assert Decimal(1) == [49];
  }
}
