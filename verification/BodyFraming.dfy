/** How a body is framed, as its sender and its receiver each derive it from the headers. */
module BodyFraming {
  import opened Wrappers
  import opened Octets
  import opened MessagePack
  import opened Headers

  /** One past the largest `u64`, and the largest `usize` on a 64-bit machine. */
  const U64_LIMIT: nat := 0x1_0000_0000_0000_0000

  const BODY_SIZE: U16OrStr := Num(0xa1)
  const BODY_TRANSFER: U16OrStr := Num(0xa5)
  const TRANSFER_CHUNKED: U16 := 0x20

  /** The length of the white-space character at the front, 0 when there is none. */
  function WhiteAtFront(bs: seq<Byte>): (n: nat)
    ensures n <= |bs|
  {
    if bs == [] then 0
    else if 9 <= bs[0] <= 13 || bs[0] == 32 then 1
    else if |bs| >= 2 && IsWhite2(bs[0], bs[1]) then 2
    else if |bs| >= 3 && IsWhite3(bs[0], bs[1], bs[2]) then 3
    else 0
  }

  function WhiteAtEnd(bs: seq<Byte>): (n: nat)
    ensures n <= |bs|
  {
    var l := |bs|;
    if bs == [] then 0
    else if 9 <= bs[l - 1] <= 13 || bs[l - 1] == 32 then 1
    else if l >= 2 && IsWhite2(bs[l - 2], bs[l - 1]) then 2
    else if l >= 3 && IsWhite3(bs[l - 3], bs[l - 2], bs[l - 1]) then 3
    else 0
  }

  predicate IsWhite2(a: Byte, b: Byte) {
    a == 0xc2 && (b == 0x85 || b == 0xa0)
  }

  predicate IsWhite3(a: Byte, b: Byte, c: Byte) {
    || (a == 0xe1 && b == 0x9a && c == 0x80)
    || (a == 0xe2 && b == 0x80 && (0x80 <= c <= 0x8a || c == 0xa8 || c == 0xa9 || c == 0xaf))
    || (a == 0xe2 && b == 0x81 && c == 0x9f)
    || (a == 0xe3 && b == 0x80 && c == 0x80)
  }

  /** The characters trimmed are those with the Unicode property White_Space. */
  predicate WhiteSpace(point: int) {
    || 0x9 <= point <= 0xd || point == 0x20 || point == 0x85 || point == 0xa0 || point == 0x1680
    || 0x2000 <= point <= 0x200a || point == 0x2028 || point == 0x2029 || point == 0x202f || point == 0x205f
    || point == 0x3000
  }

  lemma WhiteIsWhiteSpace(point: int, rest: seq<Byte>)
    requires ScalarValue(point)
    ensures WhiteAtFront(EncodePoint(point) + rest) == if WhiteSpace(point) then |EncodePoint(point)| else 0
  {
  }

  function TrimFront(bs: seq<Byte>): seq<Byte> {
    if WhiteAtFront(bs) == 0 then bs else TrimFront(bs[WhiteAtFront(bs)..])
  }

  function TrimBack(bs: seq<Byte>): seq<Byte> {
    if WhiteAtEnd(bs) == 0 then bs else TrimBack(bs[..|bs| - WhiteAtEnd(bs)])
  }

  function TrimWhite(bs: seq<Byte>): seq<Byte> {
    TrimBack(TrimFront(bs))
  }

  lemma WhiteSpaceAtEnd(front: seq<Byte>, point: int)
    requires ScalarValue(point)
    ensures WhiteAtEnd(front + EncodePoint(point)) == if WhiteSpace(point) then |EncodePoint(point)| else 0
  {
    var letter := EncodePoint(point);
    var bs, l := front + letter, |front + letter|;
    assert bs[l - 1] == letter[|letter| - 1];
    assert |letter| >= 2 ==> bs[l - 2] == letter[|letter| - 2];
    assert |letter| >= 3 ==> bs[l - 3] == letter[|letter| - 3];
  }

  /** White space around a text is trimmed, character by character, and nothing else is. */
  lemma TrimsWhiteSpace(point: int, text: seq<Byte>)
    requires ScalarValue(point)
    ensures TrimFront(EncodePoint(point) + text) ==
      if WhiteSpace(point) then TrimFront(text) else EncodePoint(point) + text
    ensures TrimBack(text + EncodePoint(point)) ==
      if WhiteSpace(point) then TrimBack(text) else text + EncodePoint(point)
  {
    var letter := EncodePoint(point);
    WhiteIsWhiteSpace(point, text);
    WhiteSpaceAtEnd(text, point);
    assert (letter + text)[|letter|..] == text && (text + letter)[..|text|] == text;
  }

  function Digit(b: Byte, radix: nat): Option<nat> {
    var d: nat :=
      if 48 <= b <= 57 then b - 48
      else if 97 <= b <= 102 then b - 87
      else if 65 <= b <= 70 then b - 55
      else radix;
    if d < radix then Some(d) else None
  }

  function DigitsValue(digits: seq<Byte>, radix: nat): Option<nat> {
    if digits == [] then Some(0)
    else
      match (DigitsValue(digits[..|digits| - 1], radix), Digit(digits[|digits| - 1], radix))
      case (Some(n), Some(d)) => Some(n * radix + d)
      case _ => None
  }

  /** An unsigned 64-bit number: an optional plus sign, at least one digit, no overflow. */
  function ParseU64(text: seq<Byte>, radix: nat): Option<nat> {
    var digits := if text != [] && text[0] == 43 then text[1..] else text;
    if digits == [] then None
    else
      match DigitsValue(digits, radix)
      case None => None
      case Some(n) => if n < U64_LIMIT then Some(n) else None
  }

  function Decimal(n: nat): seq<Byte> {
    (if n < 10 then [] else Decimal(n / 10)) + [48 + n % 10]
  }

  predicate IsDecimal(bs: seq<Byte>) {
    bs != [] && forall i :: 0 <= i < |bs| ==> 48 <= bs[i] <= 57
  }

  lemma {:induction false} DecimalParses(n: nat)
    ensures IsDecimal(Decimal(n)) && DigitsValue(Decimal(n), 10) == Some(n)
  {
    var front := if n < 10 then [] else Decimal(n / 10);
    if n >= 10 {
      DecimalParses(n / 10);
    }
    assert Decimal(n)[..|Decimal(n)| - 1] == front;
  }

  /** A text with visible ASCII characters at its ends is left alone. */
  lemma VisibleIsTrimmed(text: seq<Byte>)
    requires text != [] && 32 < text[0] < 0x80 && 32 < text[|text| - 1] < 0x80
    ensures TrimWhite(text) == text
  {
    assert WhiteAtFront(text) == 0 && WhiteAtEnd(text) == 0;
  }

  /** Digits that come to a value parse to it, signed with a plus or not, if it fits 64 bits. */
  lemma DigitsParse(digits: seq<Byte>, radix: nat, n: nat)
    requires digits != [] && digits[0] != 43 && DigitsValue(digits, radix) == Some(n)
    ensures ParseU64(digits, radix) == ParseU64([43] + digits, radix)
    ensures ParseU64(digits, radix) == if n < 0x1_0000_0000_0000_0000 then Some(n) else None
  {
    assert ([43] + digits)[1..] == digits;
  }

  /** A number printed in decimal, signed with a plus or not, parses back to itself if it fits 64 bits. */
  lemma DecimalRoundTrip(n: nat)
    ensures ParseU64(TrimWhite(Decimal(n)), 10) == if n < 0x1_0000_0000_0000_0000 then Some(n) else None
    ensures ParseU64([43] + Decimal(n), 10) == ParseU64(TrimWhite(Decimal(n)), 10)
    ensures HexPart(TrimWhite(Decimal(n))).None?
  {
    DecimalParses(n);
    VisibleIsTrimmed(Decimal(n));
    DigitsParse(Decimal(n), 10, n);
  }

  /** What follows a `0x` or `0X`. */
  function HexPart(text: seq<Byte>): Option<seq<Byte>> {
    if |text| >= 2 && text[0] == 48 && (text[1] == 120 || text[1] == 88) then Some(text[2..]) else None
  }

  function AsU64(val: U16OrStr): Option<nat> {
    match val
    case Num(n) => Some(n)
    case Str(t) =>
      var text := TrimWhite(t);
      match HexPart(text)
      case Some(hex) => ParseU64(hex, 16)
      case None => ParseU64(text, 10)
  }

  /** A hexadecimal digit, in either case. */
  function HexDigit(d: nat, upper: bool): Byte
    requires d < 16
  {
    if d < 10 then 48 + d else if upper then 55 + d else 87 + d
  }

  function Hexadecimal(n: nat, upper: bool): seq<Byte> {
    (if n < 16 then [] else Hexadecimal(n / 16, upper)) + [HexDigit(n % 16, upper)]
  }

  lemma {:induction false} HexadecimalParses(n: nat, upper: bool)
    ensures var digits := Hexadecimal(n, upper);
      && digits != [] && digits[0] != 43 && 32 < digits[|digits| - 1] < 0x80
      && DigitsValue(digits, 16) == Some(n)
  {
    var front := if n < 16 then [] else Hexadecimal(n / 16, upper);
    if n >= 16 {
      HexadecimalParses(n / 16, upper);
    }
    assert Hexadecimal(n, upper)[..|Hexadecimal(n, upper)| - 1] == front;
    assert Digit(HexDigit(n % 16, upper), 16) == Some(n % 16);
  }

  /** So does a number printed in hexadecimal behind `0x` or `0X`. */
  lemma HexRoundTrip(n: nat, upper: bool, x: Byte, text: Text)
    requires x == 120 || x == 88
    requires text == [48, x] + Hexadecimal(n, upper)
    ensures AsU64(Str(text)) == if n < 0x1_0000_0000_0000_0000 then Some(n) else None
  {
    var digits := Hexadecimal(n, upper);
    HexadecimalParses(n, upper);
    DigitsParse(digits, 16, n);
    assert text[0] == 48 && text[1] == x && text[2..] == digits && text[|text| - 1] == digits[|digits| - 1];
    VisibleIsTrimmed(text);
    assert HexPart(text) == Some(digits);
  }

  function Lower(b: Byte): Byte {
    if 65 <= b <= 90 then b + 32 else b
  }

  /** "chunked", in any case. */
  predicate SaysChunked(text: seq<Byte>) {
    var word: seq<Byte> := [99, 104, 117, 110, 107, 101, 100];
    |text| == |word| && forall i :: 0 <= i < |word| ==> Lower(text[i]) == word[i]
  }

  predicate IsChunkedValue(val: U16OrStr) {
    match val
    case Num(n) => n == TRANSFER_CHUNKED
    case Str(t) => SaysChunked(TrimWhite(t))
  }

  /** A text declares chunks when it spells "chunked" in any case, white space around it or not. */
  lemma ChunkedInAnyCase(text: Text)
    ensures IsChunkedValue(Str(text)) <==>
      var word := TrimWhite(text);
      |word| == 7 && forall i :: 0 <= i < 7 ==> word[i] == "chunked"[i] as int || word[i] == "CHUNKED"[i] as int
  {
    var word := TrimWhite(text);
    var small: seq<Byte> := [99, 104, 117, 110, 107, 101, 100];
    assert forall i :: 0 <= i < 7 ==> small[i] == "chunked"[i] as int && small[i] == "CHUNKED"[i] as int + 32;
    if |word| == 7 {
      forall i | 0 <= i < 7
        ensures Lower(word[i]) == small[i] <==> word[i] == "chunked"[i] as int || word[i] == "CHUNKED"[i] as int
      {
      }
    }
  }

  predicate IsChunked(headers: Headers) {
    Lookup(headers, BODY_TRANSFER).Some? && IsChunkedValue(Lookup(headers, BODY_TRANSFER).value)
  }

  function BodySizeOf(headers: Headers): Option<nat> {
    match Lookup(headers, BODY_SIZE)
    case None => None
    case Some(val) => AsU64(val)
  }

  datatype Length = ByNumber(n: nat) | ByText(text: Text)

  datatype BodySize = FixedLength(size: Length) | ChunkedData | NilBody

  /** The declaration both ends' message layers read off a prefix. */
  function BodyInfo(headers: Option<Headers>): BodySize {
    match headers
    case None => NilBody
    case Some(h) =>
      match Lookup(h, BODY_SIZE)
      case Some(val) =>
        var size := match val case Num(n) => Some(n as nat) case Str(t) => ParseU64(TrimWhite(t), 10);
        if size == None || size == Some(0) then NilBody else FixedLength(ByNumber(size.value))
      case None => if IsChunked(h) then ChunkedData else NilBody
  }

  /** A size declared as a decimal text is read as that number by both readings of it. */
  lemma SizeTextDeclares(headers: Headers, text: Text, n: nat)
    requires Lookup(headers, BODY_SIZE) == Some(Str(text))
    requires ParseU64(TrimWhite(text), 10) == Some(n) && HexPart(TrimWhite(text)).None?
    ensures BodySizeOf(headers) == Some(n)
    ensures BodyInfo(Some(headers)) == if n == 0 then NilBody else FixedLength(ByNumber(n))
  {
  }

  /** How many bytes to move, or that chunks tell. */
  datatype Framing = ExactlyBytes(n: nat) | InChunks

  function SenderFraming(headers: Headers): Framing {
    match BodyInfo(Some(headers))
    case NilBody => ExactlyBytes(0)
    case ChunkedData => InChunks
    case FixedLength(ByNumber(n)) => ExactlyBytes(n)
    case FixedLength(ByText(_)) => ExactlyBytes(0)
  }

  /** The server's choice of reader for a request body. */
  function ServerFraming(headers: Headers): Framing {
    if IsChunked(headers) then InChunks
    else ExactlyBytes(match BodySizeOf(headers) case Some(n) => n case None => 0)
  }

  predicate HasBoth(headers: Headers) {
    Lookup(headers, BODY_SIZE).Some? && IsChunked(headers)
  }

  /** The size is a text that only hexadecimal reading turns into a length. */
  predicate HexSized(headers: Headers) {
    match Lookup(headers, BODY_SIZE)
    case Some(Str(t)) =>
      HexPart(TrimWhite(t)).Some? && var n := ParseU64(HexPart(TrimWhite(t)).value, 16); n.Some? && n.value > 0
    case _ => false
  }

  lemma HexIsNotDecimal(text: seq<Byte>)
    requires HexPart(text).Some?
    ensures ParseU64(text, 10).None?
  {
    assert Digit(text[1], 10).None?;
    NotDigits(text, 1);
  }

  lemma {:induction false} NotDigits(digits: seq<Byte>, i: nat)
    requires i < |digits| && Digit(digits[i], 10).None?
    ensures DigitsValue(digits, 10).None?
  {
    if i < |digits| - 1 {
      NotDigits(digits[..|digits| - 1], i);
    }
  }

  /**
   * Sender and server frame a body alike exactly when the headers do not declare both a size and
   * chunks, and the size is not written in hexadecimal.
   */
  lemma FramingsAgree(headers: Headers)
    ensures SenderFraming(headers) == ServerFraming(headers) <==> !HasBoth(headers) && !HexSized(headers)
  {
    match Lookup(headers, BODY_SIZE)
    case Some(Str(t)) =>
      var text := TrimWhite(t);
      if HexPart(text).Some? {
        HexIsNotDecimal(text);
      }
    case _ =>
  }

  datatype BodyPlan = Absent | Sized(size: nat) | Chunked

  datatype PlanError = BadLength | BodyNotAllowed

  /** The boundary of a body, from its declaration alone. */
  function PlanFrom(info: BodySize): Result<BodyPlan, PlanError> {
    match info
    case NilBody => Ok(Absent)
    case ChunkedData => Ok(Chunked)
    case FixedLength(ByNumber(n)) => Ok(Sized(n))
    case FixedLength(ByText(t)) =>
      match ParseU64(TrimWhite(t), 10)
      case None => Err(BadLength)
      case Some(n) => Ok(Sized(n))
  }

  /** The plan a prefix yields frames the body the way its sender did. */
  lemma PlanFollowsSender(headers: Headers)
    ensures var plan := PlanFrom(BodyInfo(Some(headers)));
      plan.Ok? && SenderFraming(headers) ==
        match plan.value
        case Absent => ExactlyBytes(0)
        case Sized(n) => ExactlyBytes(n)
        case Chunked => InChunks
    ensures PlanFrom(BodyInfo(Some(headers))) != Ok(Sized(0))
  {
  }
}
