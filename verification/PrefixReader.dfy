/** Reading prefixes off a read half, a few bytes at a time and never one too many. */
module PrefixReader {
  import opened Wrappers
  import opened Octets
  import opened Channels
  import opened Readers
  import opened MessagePack
  import opened Headers
  import opened Prefix

  /**
   * What a read may come to over the bytes that were pending: the decoded value with exactly its
   * bytes consumed, the error decoding gives, or a read half that failed on the way. A steady half
   * fails only where the bytes run out.
   */
  ghost predicate Reads<T>(res: Result<T, WireError>, decoded: Decoded<T>, steady: bool, after: seq<Byte>) {
    match res
    case Ok(v) => decoded == Ok((v, after))
    case Err(Malformed(e)) => decoded == Err(e)
    case Err(Io) => steady ==> decoded == Err(Truncated)
  }

  method ReadScalar(rx: Port) returns (res: Result<Scalar, WireError>)
    requires rx.Valid() && rx.Obeys()
    modifies rx.Views(), rx.Base(), rx.Base().channel
    ensures rx.Valid() && Advanced(old(rx.Stands()), rx.Stands())
    ensures Reads(res, DecodeScalar(old(rx.Pending())), rx.Steady(), rx.Pending())
  {
    var ok, head := ReadExact(rx, 1);
    res := Err(Io);
    if ok {
      ghost var mid := rx.Stands();
      res := ReadTagged(rx, head[0]);
      AdvancedTwice(old(rx.Stands()), mid, rx.Stands());
      assert head == [head[0]];
    }
  }

  /** The rest of a value whose tag was read. */
  method ReadTagged(rx: Port, tag: Byte) returns (res: Result<Scalar, WireError>)
    requires rx.Valid() && rx.Obeys()
    modifies rx.Views(), rx.Base(), rx.Base().channel
    ensures rx.Valid() && Advanced(old(rx.Stands()), rx.Stands())
    ensures Reads(res, DecodeScalar([tag] + old(rx.Pending())), rx.Steady(), rx.Pending())
  {
    var ok, number := ReadExact(rx, NumberWidth(tag));
    res := Err(Io);
    if ok {
      ghost var mid, rest := rx.Stands(), rx.Pending();
      Associate([tag], number, rest);
      Tagged(tag, number, rest);
      res := ReadShape(rx, ShapeOf(tag, number));
      AdvancedTwice(old(rx.Stands()), mid, rx.Stands());
    }
  }

  method ReadShape(rx: Port, shape: Shape) returns (res: Result<Scalar, WireError>)
    requires rx.Valid() && rx.Obeys()
    modifies rx.Views(), rx.Base(), rx.Base().channel
    ensures rx.Valid() && Advanced(old(rx.Stands()), rx.Stands())
    ensures Reads(res, Shaped(shape, old(rx.Pending())), rx.Steady(), rx.Pending())
  {
    AdvancedSelf(rx.Stands());
    match shape
    case Whole(v) => res := Ok(v);
    case Other => res := Err(Malformed(Unsupported));
    case TextOf(len) => res := ReadText(rx, len);
  }

  method ReadText(rx: Port, len: nat) returns (res: Result<Scalar, WireError>)
    requires rx.Valid() && rx.Obeys()
    modifies rx.Views(), rx.Base(), rx.Base().channel
    ensures rx.Valid() && Advanced(old(rx.Stands()), rx.Stands())
    ensures Reads(res, TakeText(old(rx.Pending()), len), rx.Steady(), rx.Pending())
  {
    ghost var all := rx.Pending();
    var ok, text := ReadExact(rx, len);
    assert ok ==> all[..len] == text && all[len..] == rx.Pending();
    res := if !ok then Err(Io)
           else if len >= U32_LIMIT then Err(Malformed(Unsupported))
           else if !ValidUtf8(text) then Err(Malformed(InvalidUtf8))
           else Ok(Utf8(text));
  }

  /** A scalar as a header key or value, a number below a limit, a text. */
  function AsKey(scalar: Result<Scalar, WireError>): Result<U16OrStr, WireError> {
    match scalar
    case Err(e) => Err(e)
    case Ok(Int(n)) => if 0 <= n < U16_LIMIT then Ok(Num(n)) else Err(Malformed(OutOfRange))
    case Ok(Utf8(t)) => Ok(Str(t))
    case Ok(_) => Err(Malformed(Unsupported))
  }

  function AsNumber(scalar: Result<Scalar, WireError>, limit: nat): Result<nat, WireError> {
    match scalar
    case Err(e) => Err(e)
    case Ok(Int(n)) => if 0 <= n < limit then Ok(n) else Err(Malformed(OutOfRange))
    case Ok(_) => Err(Malformed(Unsupported))
  }

  function AsText(scalar: Result<Scalar, WireError>): Result<Text, WireError> {
    match scalar
    case Err(e) => Err(e)
    case Ok(Utf8(t)) => Ok(t)
    case Ok(_) => Err(Malformed(Unsupported))
  }

  /** A scalar read is a key, number or text read. */
  lemma KeyRead(scalar: Result<Scalar, WireError>, bs: seq<Byte>, steady: bool, after: seq<Byte>)
    requires Reads(scalar, DecodeScalar(bs), steady, after)
    ensures Reads(AsKey(scalar), DecodeKey(bs), steady, after)
  {
  }

  lemma NumberRead(scalar: Result<Scalar, WireError>, limit: nat, bs: seq<Byte>, steady: bool, after: seq<Byte>)
    requires Reads(scalar, DecodeScalar(bs), steady, after)
    ensures Reads(AsNumber(scalar, limit), DecodeNumber(bs, limit), steady, after)
  {
  }

  lemma TextRead(scalar: Result<Scalar, WireError>, bs: seq<Byte>, steady: bool, after: seq<Byte>)
    requires Reads(scalar, DecodeScalar(bs), steady, after)
    ensures Reads(AsText(scalar), DecodeText(bs), steady, after)
  {
  }

  method ReadKey(rx: Port) returns (res: Result<U16OrStr, WireError>)
    requires rx.Valid() && rx.Obeys()
    modifies rx.Views(), rx.Base(), rx.Base().channel
    ensures rx.Valid() && Advanced(old(rx.Stands()), rx.Stands())
    ensures Reads(res, DecodeKey(old(rx.Pending())), rx.Steady(), rx.Pending())
  {
    var scalar := ReadScalar(rx);
    KeyRead(scalar, old(rx.Pending()), rx.Steady(), rx.Pending());
    res := AsKey(scalar);
  }

  method ReadPair(rx: Port) returns (res: Result<Entry, WireError>)
    requires rx.Valid() && rx.Obeys()
    modifies rx.Views(), rx.Base(), rx.Base().channel
    ensures rx.Valid() && Advanced(old(rx.Stands()), rx.Stands())
    ensures Reads(res, DecodePair(old(rx.Pending())), rx.Steady(), rx.Pending())
  {
    var key := ReadKey(rx);
    if key.Err? {
      return Err(key.error);
    }
    ghost var mid := rx.Stands();
    var val := ReadKey(rx);
    AdvancedTwice(old(rx.Stands()), mid, rx.Stands());
    res := if val.Err? then Err(val.error) else Ok(Entry(key.value, val.value));
  }

  /** Read the pair behind the first ones into the map `entries` they made; `i` counts it in. */
  method ReadNext(rx: Port, ghost i: nat, entries: seq<Entry>, ghost all: seq<Byte>)
    returns (res: Result<seq<Entry>, WireError>)
    requires rx.Valid() && rx.Obeys() && i > 0
    requires DecodeEntries(i - 1, all) == Ok((entries, rx.Pending()))
    modifies rx.Views(), rx.Base(), rx.Base().channel
    ensures rx.Valid() && Advanced(old(rx.Stands()), rx.Stands())
    ensures Reads(res, DecodeEntries(i, all), rx.Steady(), rx.Pending())
  {
    assert DecodeEntries(i, all) == StorePair(entries, DecodePair(rx.Pending()));
    var pair := ReadPair(rx);
    res := if pair.Err? then Err(pair.error) else Ok(Insert(entries, pair.value.key, pair.value.val));
  }

  /** Read `count` pairs into an empty map. */
  method ReadEntries(rx: Port, count: nat) returns (res: Result<seq<Entry>, WireError>)
    requires rx.Valid() && rx.Obeys()
    modifies rx.Views(), rx.Base(), rx.Base().channel
    ensures rx.Valid() && Advanced(old(rx.Stands()), rx.Stands())
    ensures Reads(res, DecodeEntries(count, old(rx.Pending())), rx.Steady(), rx.Pending())
  {
    ghost var all, start := rx.Pending(), rx.Stands();
    ghost var decoded := DecodeEntries(0, all);
    var i := 0;
    res := Ok([]);
    AdvancedSelf(start);
    while i < count && res.Ok?
      invariant rx.Valid() && i <= count && Advanced(start, rx.Stands())
      invariant decoded == DecodeEntries(i, all) && Reads(res, decoded, rx.Steady(), rx.Pending())
    {
      ghost var mid := rx.Stands();
      i := i + 1;
      assert i - 1 >= 0 && DecodeEntries(i - 1, all) == Ok((res.value, rx.Pending()));
      res := ReadNext(rx, i, res.value, all);
      decoded := DecodeEntries(i, all);
      AdvancedTwice(start, mid, rx.Stands());
    }
    ReadsFail(res, i, count, all, rx.Steady(), rx.Pending());
  }

  /** Pairs that were never read do not mend a failed read. */
  lemma ReadsFail(res: Result<seq<Entry>, WireError>, i: nat, count: nat, all: seq<Byte>, steady: bool,
                  after: seq<Byte>)
    requires i <= count && (res.Ok? ==> i == count) && Reads(res, DecodeEntries(i, all), steady, after)
    ensures Reads(res, DecodeEntries(count, all), steady, after)
  {
    if DecodeEntries(i, all).Err? {
      EntriesFail(i, count, all);
    }
  }

  method ReadHeaders(rx: Port) returns (res: Result<Option<Headers>, WireError>)
    requires rx.Valid() && rx.Obeys()
    modifies rx.Views(), rx.Base(), rx.Base().channel
    ensures rx.Valid() && Advanced(old(rx.Stands()), rx.Stands())
    ensures Reads(res, DecodeHeaders(old(rx.Pending())), rx.Steady(), rx.Pending())
  {
    var scalar := ReadScalar(rx);
    if scalar.Err? {
      return Err(scalar.error);
    }
    ghost var mid := rx.Stands();
    res := ReadFrom(rx, scalar.value);
    AdvancedTwice(old(rx.Stands()), mid, rx.Stands());
  }

  method ReadFrom(rx: Port, first: Scalar) returns (res: Result<Option<Headers>, WireError>)
    requires rx.Valid() && rx.Obeys()
    modifies rx.Views(), rx.Base(), rx.Base().channel
    ensures rx.Valid() && Advanced(old(rx.Stands()), rx.Stands())
    ensures Reads(res, DecodeFrom(first, old(rx.Pending())), rx.Steady(), rx.Pending())
  {
    AdvancedSelf(rx.Stands());
    match first
    case Nil => res := Ok(None);
    case Map(n) => res := ReadMap(rx, n);
    case _ => res := Err(Malformed(Unsupported));
  }

  method ReadMap(rx: Port, n: nat) returns (res: Result<Option<Headers>, WireError>)
    requires rx.Valid() && rx.Obeys()
    modifies rx.Views(), rx.Base(), rx.Base().channel
    ensures rx.Valid() && Advanced(old(rx.Stands()), rx.Stands())
    ensures Reads(res, DecodeMap(n, old(rx.Pending())), rx.Steady(), rx.Pending())
  {
    AdvancedSelf(rx.Stands());
    if n >= U32_LIMIT {
      return Err(Malformed(Unsupported));
    }
    var entries := ReadEntries(rx, n);
    DecodedIsSorted(n, old(rx.Pending()));
    res := if entries.Err? then Err(entries.error) else Ok(Some(entries.value));
  }

  method ReadNumber(rx: Port, limit: nat) returns (res: Result<nat, WireError>)
    requires rx.Valid() && rx.Obeys()
    modifies rx.Views(), rx.Base(), rx.Base().channel
    ensures rx.Valid() && Advanced(old(rx.Stands()), rx.Stands())
    ensures Reads(res, DecodeNumber(old(rx.Pending()), limit), rx.Steady(), rx.Pending())
  {
    var scalar := ReadScalar(rx);
    NumberRead(scalar, limit, old(rx.Pending()), rx.Steady(), rx.Pending());
    res := AsNumber(scalar, limit);
  }

  method ReadMethod(rx: Port) returns (res: Result<AccessMethod, WireError>)
    requires rx.Valid() && rx.Obeys()
    modifies rx.Views(), rx.Base(), rx.Base().channel
    ensures rx.Valid() && Advanced(old(rx.Stands()), rx.Stands())
    ensures Reads(res, DecodeMethod(old(rx.Pending())), rx.Steady(), rx.Pending())
  {
    var code := ReadNumber(rx, 0x100);
    res := if code.Err? then Err(code.error)
           else if MethodFromCode(code.value).None? then Err(Malformed(UnknownMethod))
           else Ok(MethodFromCode(code.value).value);
  }

  method ReadLocation(rx: Port) returns (res: Result<Text, WireError>)
    requires rx.Valid() && rx.Obeys()
    modifies rx.Views(), rx.Base(), rx.Base().channel
    ensures rx.Valid() && Advanced(old(rx.Stands()), rx.Stands())
    ensures Reads(res, DecodeText(old(rx.Pending())), rx.Steady(), rx.Pending())
  {
    var scalar := ReadScalar(rx);
    TextRead(scalar, old(rx.Pending()), rx.Steady(), rx.Pending());
    res := AsText(scalar);
  }

  /** Read a request prefix: exactly its bytes leave the read half. */
  method ReadRequestPrefix(rx: Port) returns (res: Result<RequestPrefix, WireError>)
    requires rx.Valid() && rx.Obeys()
    modifies rx.Views(), rx.Base(), rx.Base().channel
    ensures rx.Valid() && Advanced(old(rx.Stands()), rx.Stands())
    ensures Reads(res, DecodeRequest(old(rx.Pending())), rx.Steady(), rx.Pending())
  {
    var access := ReadMethod(rx);
    if access.Err? {
      return Err(access.error);
    }
    ghost var mid := rx.Stands();
    var location := ReadLocation(rx);
    AdvancedTwice(old(rx.Stands()), mid, rx.Stands());
    if location.Err? {
      return Err(location.error);
    }
    mid := rx.Stands();
    var headers := ReadHeaders(rx);
    AdvancedTwice(old(rx.Stands()), mid, rx.Stands());
    res := if headers.Err? then Err(headers.error)
           else Ok(RequestPrefix(access.value, location.value, headers.value));
  }

  lemma ResponseRead(status: U16, headers: Result<Option<Headers>, WireError>, bs: seq<Byte>, mid: seq<Byte>,
                     steady: bool, after: seq<Byte>)
    requires DecodeNumber(bs, U16_LIMIT) == Ok((status, mid)) && Reads(headers, DecodeHeaders(mid), steady, after)
    ensures Reads(AsResponse(status, headers), DecodeResponse(bs), steady, after)
  {
  }

  function AsResponse(status: U16, headers: Result<Option<Headers>, WireError>): Result<ResponsePrefix, WireError> {
    if headers.Err? then Err(headers.error) else Ok(ResponsePrefix(status, headers.value))
  }

  /** What follows the status. */
  method ReadResponseHeaders(rx: Port, status: U16, ghost all: seq<Byte>)
    returns (res: Result<ResponsePrefix, WireError>)
    requires rx.Valid() && rx.Obeys() && DecodeNumber(all, U16_LIMIT) == Ok((status, rx.Pending()))
    modifies rx.Views(), rx.Base(), rx.Base().channel
    ensures rx.Valid() && Advanced(old(rx.Stands()), rx.Stands())
    ensures Reads(res, DecodeResponse(all), rx.Steady(), rx.Pending())
  {
    ghost var rest := rx.Pending();
    var headers := ReadHeaders(rx);
    ResponseRead(status, headers, all, rest, rx.Steady(), rx.Pending());
    res := AsResponse(status, headers);
  }

  method ReadResponsePrefix(rx: Port) returns (res: Result<ResponsePrefix, WireError>)
    requires rx.Valid() && rx.Obeys()
    modifies rx.Views(), rx.Base(), rx.Base().channel
    ensures rx.Valid() && Advanced(old(rx.Stands()), rx.Stands())
    ensures Reads(res, DecodeResponse(old(rx.Pending())), rx.Steady(), rx.Pending())
  {
    var status := ReadNumber(rx, U16_LIMIT);
    if status.Err? {
      return Err(status.error);
    }
    ghost var mid := rx.Stands();
    res := ReadResponseHeaders(rx, status.value, old(rx.Pending()));
    AdvancedTwice(old(rx.Stands()), mid, rx.Stands());
  }
}
