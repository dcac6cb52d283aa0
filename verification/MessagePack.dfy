/**
 * The MessagePack values a message prefix is made of, after the format families of the
 * MessagePack specification: nil, integers, strings and map headers.
 */
module MessagePack {
  import opened Wrappers
  import opened Octets

  const U16_LIMIT: nat := 0x1_0000
  const U32_LIMIT: nat := 0x1_0000_0000

  type U16 = n: int | 0 <= n < 0x1_0000

  predicate Continuation(b: Byte) {
    0x80 <= b < 0xc0
  }

  /** The length of the well-formed UTF-8 character at the front, 0 when there is none (RFC 3629, section 4). */
  function CharLen(bs: seq<Byte>): (n: nat)
    ensures n <= 4 && n <= |bs|
  {
    if bs == [] then 0
    else if bs[0] < 0x80 then 1
    else if 0xc2 <= bs[0] < 0xe0 && |bs| >= 2 && Continuation(bs[1]) then 2
    else if 0xe0 <= bs[0] < 0xf0 && |bs| >= 3 && Continuation(bs[1]) && Continuation(bs[2])
      && (bs[0] == 0xe0 ==> bs[1] >= 0xa0) && (bs[0] == 0xed ==> bs[1] < 0xa0) then 3
    else if 0xf0 <= bs[0] < 0xf5 && |bs| >= 4 && Continuation(bs[1]) && Continuation(bs[2]) && Continuation(bs[3])
      && (bs[0] == 0xf0 ==> bs[1] >= 0x90) && (bs[0] == 0xf4 ==> bs[1] < 0x90) then 4
    else 0
  }

  predicate ValidUtf8(bs: seq<Byte>) {
    bs == [] || (CharLen(bs) > 0 && ValidUtf8(bs[CharLen(bs)..]))
  }

  /** What a character may stand for: any code point but a surrogate. */
  predicate ScalarValue(point: int) {
    0 <= point < 0xd800 || 0xe000 <= point < 0x11_0000
  }

  /** The UTF-8 form of a character (RFC 3629, section 3). */
  function EncodePoint(point: int): (bs: seq<Byte>)
    requires ScalarValue(point)
    ensures bs != []
  {
    var high := point / 64;
    if point < 0x80 then [point]
    else if point < 0x800 then [0xc0 + high, 0x80 + point % 64]
    else if point < 0x1_0000 then [0xe0 + high / 64, 0x80 + high % 64, 0x80 + point % 64]
    else [0xf0 + high / 64 / 64, 0x80 + high / 64 % 64, 0x80 + high % 64, 0x80 + point % 64]
  }

  /** A character is found at the front exactly as it was encoded. */
  lemma CharLenOfPoint(point: int, rest: seq<Byte>)
    requires ScalarValue(point)
    ensures CharLen(EncodePoint(point) + rest) == |EncodePoint(point)|
  {
    var letter := EncodePoint(point);
    assert forall i :: 0 <= i < |letter| ==> (letter + rest)[i] == letter[i];
  }

  /** The lowest six bits of a character, and the rest of it. */
  lemma SixBits(high: nat, low: nat)
    requires low < 64
    ensures (high * 64 + low) / 64 == high && (high * 64 + low) % 64 == low
  {
  }

  /** And only encoded characters are found. */
  lemma CharIsPoint(bs: seq<Byte>) returns (point: int)
    requires CharLen(bs) > 0
    ensures ScalarValue(point) && bs[..CharLen(bs)] == EncodePoint(point)
  {
    var n, a := CharLen(bs), bs[0] as int;
    if n == 1 {
      point := a;
    } else {
      var b := bs[1] as int - 0x80;
      if n == 2 {
        point := (a - 0xc0) * 64 + b;
      } else {
        var c := bs[2] as int - 0x80;
        if n == 3 {
          SixBits(a - 0xe0, b);
          point := ((a - 0xe0) * 64 + b) * 64 + c;
          SixBits((a - 0xe0) * 64 + b, c);
        } else {
          point := FourBytes(bs);
        }
      }
    }
  }

  lemma FourBytes(bs: seq<Byte>) returns (point: int)
    requires CharLen(bs) == 4
    ensures ScalarValue(point) && bs[..4] == EncodePoint(point)
  {
    var a, b, c, d := bs[0] as int - 0xf0, bs[1] as int - 0x80, bs[2] as int - 0x80, bs[3] as int - 0x80;
    SixBits(a, b);
    SixBits(a * 64 + b, c);
    point := ((a * 64 + b) * 64 + c) * 64 + d;
    SixBits((a * 64 + b) * 64 + c, d);
    assert 0x1_0000 <= point < 0x11_0000;
    assert EncodePoint(point) == [bs[0], bs[1], bs[2], bs[3]];
  }

  predicate AllScalar(points: seq<int>) {
    forall i :: 0 <= i < |points| ==> ScalarValue(points[i])
  }

  function EncodePoints(points: seq<int>): seq<Byte>
    requires AllScalar(points)
  {
    if points == [] then [] else EncodePoint(points[0]) + EncodePoints(points[1..])
  }

  /** What is encoded is valid UTF-8. */
  lemma {:induction false} EncodedIsValid(points: seq<int>)
    requires AllScalar(points)
    ensures ValidUtf8(EncodePoints(points))
  {
    if points != [] {
      var first, rest := EncodePoint(points[0]), EncodePoints(points[1..]);
      CharLenOfPoint(points[0], rest);
      assert (first + rest)[|first|..] == rest;
      EncodedIsValid(points[1..]);
    }
  }

  /** And valid UTF-8 is what encodes some characters. */
  lemma {:induction false} ValidIsEncoded(bs: seq<Byte>) returns (points: seq<int>)
    requires ValidUtf8(bs)
    ensures AllScalar(points) && EncodePoints(points) == bs
  {
    points := [];
    if bs != [] {
      var first := CharIsPoint(bs);
      var rest := ValidIsEncoded(bs[CharLen(bs)..]);
      points := [first] + rest;
      assert points[1..] == rest && bs == bs[..CharLen(bs)] + bs[CharLen(bs)..];
    }
  }

  /** A text as it goes on the wire: UTF-8 bytes, no longer than a MessagePack string may be. */
  type Text = bs: seq<Byte> | ValidUtf8(bs) && |bs| < U32_LIMIT

  datatype Scalar = Nil | Int(value: int) | Utf8(text: Text) | Map(count: nat)

  datatype DecodeError = Truncated | InvalidUtf8 | Unsupported | OutOfRange | UnknownMethod

  type Decoded<T> = Result<(T, seq<Byte>), DecodeError>

  function Signed(n: nat, width: nat): int
    requires n < Span(width)
  {
    if 2 * n < Span(width) then n else n - Span(width)
  }

  /** How many bytes of number follow a tag. */
  function NumberWidth(tag: Byte): nat {
    if tag in {0xcc, 0xd0, 0xd9} then 1
    else if tag in {0xcd, 0xd1, 0xda, 0xde} then 2
    else if tag in {0xce, 0xd2, 0xdb, 0xdf} then 4
    else if tag in {0xcf, 0xd3} then 8
    else 0
  }

  /** What a tag and its number announce: a whole value, a text to come, or a family a prefix never holds. */
  datatype Shape = Whole(value: Scalar) | TextOf(len: nat) | Other

  function ShapeOf(tag: Byte, number: seq<Byte>): Shape
    requires |number| == NumberWidth(tag)
  {
    var n := FromBigEndian(number);
    if tag < 0x80 then Whole(Int(tag))
    else if tag < 0x90 then Whole(Map(tag - 0x80))
    else if 0xa0 <= tag < 0xc0 then TextOf(tag - 0xa0)
    else if tag == 0xc0 then Whole(Nil)
    else if 0xcc <= tag <= 0xcf then Whole(Int(n))
    else if 0xd0 <= tag <= 0xd3 then Whole(Int(Signed(n, |number|)))
    else if 0xd9 <= tag <= 0xdb then TextOf(n)
    else if 0xde <= tag <= 0xdf then Whole(Map(n))
    else if tag >= 0xe0 then Whole(Int(tag as int - 0x100))
    else Other
  }

  function TakeText(bs: seq<Byte>, len: nat): Decoded<Scalar> {
    if |bs| < len then Err(Truncated)
    else if len >= U32_LIMIT then Err(Unsupported)
    else if !ValidUtf8(bs[..len]) then Err(InvalidUtf8)
    else Ok((Utf8(bs[..len]), bs[len..]))
  }

  /** The value of a shape, given what follows its tag and number. */
  function Shaped(shape: Shape, rest: seq<Byte>): Decoded<Scalar> {
    match shape
    case Whole(v) => Ok((v, rest))
    case TextOf(len) => TakeText(rest, len)
    case Other => Err(Unsupported)
  }

  /** The value a tag and its number begin, given what follows them. */
  function Finish(tag: Byte, number: seq<Byte>, rest: seq<Byte>): Decoded<Scalar>
    requires |number| == NumberWidth(tag)
  {
    Shaped(ShapeOf(tag, number), rest)
  }

  /** One value off the front. */
  function DecodeScalar(bs: seq<Byte>): Decoded<Scalar> {
    if bs == [] then Err(Truncated)
    else
      var after := 1 + NumberWidth(bs[0]);
      if |bs| < after then Err(Truncated) else Finish(bs[0], bs[1..after], bs[after..])
  }

  const NIL: seq<Byte> := [0xc0]

  /** The shortest unsigned form. */
  function EncodeU16(n: U16): seq<Byte> {
    SpanValues();
    if n < 0x80 then [n]
    else if n < 0x100 then [0xcc] + BigEndian(n, 1)
    else [0xcd] + BigEndian(n, 2)
  }

  function EncodeText(t: Text): seq<Byte> {
    SpanValues();
    (if |t| < 0x20 then [0xa0 + |t|]
     else if |t| < 0x100 then [0xd9] + BigEndian(|t|, 1)
     else if |t| < U16_LIMIT then [0xda] + BigEndian(|t|, 2)
     else [0xdb] + BigEndian(|t|, 4)) + t
  }

  function EncodeMapHeader(n: nat): seq<Byte>
    requires n < U32_LIMIT
  {
    SpanValues();
    if n < 0x10 then [0x80 + n]
    else if n < U16_LIMIT then [0xde] + BigEndian(n, 2)
    else [0xdf] + BigEndian(n, 4)
  }

  lemma SpanValues()
    ensures Span(1) == 0x100 && Span(2) == U16_LIMIT && Span(4) == U32_LIMIT
  {
    assert Span(1) == 256 * Span(0);
    assert Span(2) == 256 * Span(1);
    assert Span(3) == 256 * Span(2);
    assert Span(4) == 256 * Span(3);
  }

  /** A tag and a number in its width decode by what they announce. */
  lemma Tagged(tag: Byte, number: seq<Byte>, rest: seq<Byte>)
    requires |number| == NumberWidth(tag)
    ensures DecodeScalar([tag] + number + rest) == Finish(tag, number, rest)
  {
    var bs, after := [tag] + number + rest, 1 + |number|;
    assert bs[1..after] == number && bs[after..] == rest;
  }

  lemma TaggedNumber(tag: Byte, n: nat, rest: seq<Byte>)
    requires n < Span(NumberWidth(tag))
    ensures DecodeScalar([tag] + BigEndian(n, NumberWidth(tag)) + rest)
         == Finish(tag, BigEndian(n, NumberWidth(tag)), rest)
    ensures FromBigEndian(BigEndian(n, NumberWidth(tag))) == n
  {
    Tagged(tag, BigEndian(n, NumberWidth(tag)), rest);
    BigEndianRoundTrip(n, NumberWidth(tag));
  }

  /** A value that is its tag alone. */
  lemma TagOnly(tag: Byte, rest: seq<Byte>)
    requires NumberWidth(tag) == 0
    ensures DecodeScalar([tag] + rest) == Finish(tag, [], rest)
  {
    Tagged(tag, [], rest);
    assert [tag] + [] + rest == [tag] + rest;
  }

  lemma U16RoundTrip(n: U16, tail: seq<Byte>)
    ensures DecodeScalar(EncodeU16(n) + tail) == Ok((Int(n), tail))
  {
    SpanValues();
    if n < 0x80 {
      TagOnly(n, tail);
    } else if n < 0x100 {
      TaggedNumber(0xcc, n, tail);
    } else {
      TaggedNumber(0xcd, n, tail);
    }
  }

  lemma TakeTextBack(t: Text, tail: seq<Byte>)
    ensures TakeText(t + tail, |t|) == Ok((Utf8(t), tail))
  {
    assert (t + tail)[..|t|] == t && (t + tail)[|t|..] == tail;
  }

  lemma ShortTextRoundTrip(t: Text, tail: seq<Byte>)
    requires |t| < 0x20
    ensures DecodeScalar([0xa0 + |t|] + t + tail) == Ok((Utf8(t), tail))
  {
    TakeTextBack(t, tail);
    Associate([0xa0 + |t|], t, tail);
    TagOnly(0xa0 + |t|, t + tail);
  }

  /** A text behind a tag and a length of one, two or four bytes. */
  lemma LongTextRoundTrip(tag: Byte, t: Text, tail: seq<Byte>)
    requires 0xd9 <= tag <= 0xdb && |t| < Span(NumberWidth(tag))
    ensures DecodeScalar([tag] + BigEndian(|t|, NumberWidth(tag)) + t + tail) == Ok((Utf8(t), tail))
  {
    TakeTextBack(t, tail);
    Associate([tag] + BigEndian(|t|, NumberWidth(tag)), t, tail);
    TaggedNumber(tag, |t|, t + tail);
  }

  lemma TextRoundTrip(t: Text, tail: seq<Byte>)
    ensures DecodeScalar(EncodeText(t) + tail) == Ok((Utf8(t), tail))
  {
    SpanValues();
    if |t| < 0x20 {
      ShortTextRoundTrip(t, tail);
    } else {
      LongTextRoundTrip(if |t| < 0x100 then 0xd9 else if |t| < U16_LIMIT then 0xda else 0xdb, t, tail);
    }
  }

  lemma MapHeaderRoundTrip(n: nat, tail: seq<Byte>)
    requires n < U32_LIMIT
    ensures DecodeScalar(EncodeMapHeader(n) + tail) == Ok((Map(n), tail))
  {
    SpanValues();
    if n < 0x10 {
      TagOnly(0x80 + n, tail);
    } else if n < U16_LIMIT {
      TaggedNumber(0xde, n, tail);
    } else {
      TaggedNumber(0xdf, n, tail);
    }
  }

  lemma NilRoundTrip(tail: seq<Byte>)
    ensures DecodeScalar(NIL + tail) == Ok((Nil, tail))
  {
    TagOnly(0xc0, tail);
  }

  /** Negative numbers are in two's complement, the smallest of them in the tag itself. */
  lemma NegativeDecodes(tag: Byte, code: nat, tail: seq<Byte>)
    requires 0xd0 <= tag <= 0xd3 && code < Span(NumberWidth(tag)) <= 2 * code
    ensures DecodeScalar([tag] + BigEndian(code, NumberWidth(tag)) + tail) ==
      Ok((Int(code - Span(NumberWidth(tag))), tail))
  {
    TaggedNumber(tag, code, tail);
  }

  lemma SmallNegativeDecodes(n: int, tail: seq<Byte>)
    requires -32 <= n < 0
    ensures DecodeScalar([0x100 + n] + tail) == Ok((Int(n), tail))
  {
    TagOnly(0x100 + n, tail);
  }

  /** Arrays, booleans, binary data, extensions and floats are not read. */
  lemma OtherFamiliesFail(tag: Byte, rest: seq<Byte>)
    requires 0x90 <= tag < 0xa0 || 0xc1 <= tag < 0xcc || 0xd4 <= tag < 0xd9 || 0xdc <= tag < 0xde
    ensures DecodeScalar([tag] + rest) == Err(Unsupported)
  {
    TagOnly(tag, rest);
  }

  /** The width and signedness a number is written with do not change its meaning. */
  lemma AnyWidthDecodes(tag: Byte, n: nat, tail: seq<Byte>)
    requires 0xcc <= tag <= 0xd3 && n < Span(NumberWidth(tag))
    requires tag >= 0xd0 ==> 2 * n < Span(NumberWidth(tag))
    ensures NumberWidth(tag) == [1, 2, 4, 8, 1, 2, 4, 8][tag - 0xcc]
    ensures DecodeScalar([tag] + BigEndian(n, NumberWidth(tag)) + tail) == Ok((Int(n), tail))
  {
    TaggedNumber(tag, n, tail);
  }

  /** A value that decodes goes on decoding when more bytes arrive, which are left behind it. */
  lemma ScalarExtends(bs: seq<Byte>, more: seq<Byte>)
    requires DecodeScalar(bs).Ok?
    ensures DecodeScalar(bs + more) == Ok((DecodeScalar(bs).value.0, DecodeScalar(bs).value.1 + more))
  {
    var tag, after := bs[0], 1 + NumberWidth(bs[0]);
    var number, rest := bs[1..after], bs[after..];
    assert bs == [tag] + number + rest;
    Associate([tag] + number, rest, more);
    Tagged(tag, number, rest);
    Tagged(tag, number, rest + more);
    if ShapeOf(tag, number).TextOf? {
      var len := ShapeOf(tag, number).len;
      assert (rest + more)[..len] == rest[..len] && (rest + more)[len..] == rest[len..] + more;
    }
  }
}
