/**
 * The header map: keys and values that are each a number or a text, kept in key order, and
 * written as bare MessagePack values with no tag to tell the two forms apart.
 */
module Headers {
  import opened Wrappers
  import opened Octets
  import opened MessagePack

  datatype U16OrStr = Num(num: U16) | Str(text: Text)

  /** Byte order of texts. */
  predicate TextLess(a: seq<Byte>, b: seq<Byte>) {
    b != [] && (a == [] || a[0] < b[0] || (a[0] == b[0] && TextLess(a[1..], b[1..])))
  }

  /** Key order: numbers first. */
  predicate Less(a: U16OrStr, b: U16OrStr) {
    match (a, b)
    case (Num(m), Num(n)) => m < n
    case (Num(_), Str(_)) => true
    case (Str(_), Num(_)) => false
    case (Str(s), Str(t)) => TextLess(s, t)
  }

  lemma {:induction false} TextTrichotomy(a: seq<Byte>, b: seq<Byte>)
    ensures TextLess(a, b) || TextLess(b, a) || a == b
    ensures !(TextLess(a, b) && TextLess(b, a)) && !TextLess(a, a)
  {
    if a != [] && b != [] && a[0] == b[0] {
      TextTrichotomy(a[1..], b[1..]);
      assert a == [a[0]] + a[1..] && b == [b[0]] + b[1..];
    }
    if a != [] {
      TextTrichotomy(a[1..], a[1..]);
    }
  }

  /** Texts are ordered by their first differing byte, a front of a text before the text. */
  lemma {:induction false} TextOrder(a: seq<Byte>, b: seq<Byte>, k: nat)
    requires k <= |a| && k <= |b| && a[..k] == b[..k]
    requires k == |a| || k == |b| || a[k] != b[k]
    ensures TextLess(a, b) <==> k < |b| && (k == |a| || a[k] < b[k])
  {
    if k > 0 {
      assert a[0] == a[..k][0] == b[..k][0] == b[0];
      assert a[1..][..k - 1] == a[..k][1..] && b[1..][..k - 1] == b[..k][1..];
      TextOrder(a[1..], b[1..], k - 1);
    }
  }

  lemma {:induction false} TextTransitive(a: seq<Byte>, b: seq<Byte>, c: seq<Byte>)
    requires TextLess(a, b) && TextLess(b, c)
    ensures TextLess(a, c)
  {
    if a != [] && a[0] == b[0] == c[0] {
      TextTransitive(a[1..], b[1..], c[1..]);
    }
  }

  lemma Trichotomy(a: U16OrStr, b: U16OrStr)
    ensures Less(a, b) || Less(b, a) || a == b
    ensures !(Less(a, b) && Less(b, a)) && !Less(a, a)
  {
    if a.Str? && b.Str? {
      TextTrichotomy(a.text, b.text);
    }
    if a.Str? {
      TextTrichotomy(a.text, a.text);
    }
  }

  lemma Transitive(a: U16OrStr, b: U16OrStr, c: U16OrStr)
    requires Less(a, b) && Less(b, c)
    ensures Less(a, c)
  {
    if a.Str? && b.Str? && c.Str? {
      TextTransitive(a.text, b.text, c.text);
    }
  }

  datatype Entry = Entry(key: U16OrStr, val: U16OrStr)

  /** Entries in strictly rising key order. */
  predicate Sorted(entries: seq<Entry>) {
    forall i, j :: 0 <= i < j < |entries| ==> Less(entries[i].key, entries[j].key)
  }

  /** In key order the numbers come first, rising; the texts follow. */
  lemma NumbersComeFirst(entries: seq<Entry>, i: nat, j: nat)
    requires Sorted(entries) && i < j < |entries| && entries[j].key.Num?
    ensures entries[i].key.Num? && entries[i].key.num < entries[j].key.num
  {
    assert Less(entries[i].key, entries[j].key);
  }

  /** A header map holds at most as many entries as a MessagePack map. */
  type Headers = entries: seq<Entry> | Sorted(entries) && |entries| < U32_LIMIT

  function Lookup(entries: seq<Entry>, key: U16OrStr): Option<U16OrStr> {
    if entries == [] then None
    else if entries[0].key == key then Some(entries[0].val)
    else Lookup(entries[1..], key)
  }

  /** Store a value under a key, replacing the one that was there. */
  function Insert(entries: seq<Entry>, key: U16OrStr, val: U16OrStr): seq<Entry> {
    if entries == [] then [Entry(key, val)]
    else if Less(key, entries[0].key) then [Entry(key, val)] + entries
    else if entries[0].key == key then [Entry(key, val)] + entries[1..]
    else [entries[0]] + Insert(entries[1..], key, val)
  }

  function Remove(entries: seq<Entry>, key: U16OrStr): seq<Entry> {
    if entries == [] then []
    else if entries[0].key == key then entries[1..]
    else [entries[0]] + Remove(entries[1..], key)
  }

  /** The keys of the result are those of the map and the new one. */
  lemma {:induction false} InsertKeys(entries: seq<Entry>, key: U16OrStr, val: U16OrStr, i: nat)
    requires i < |Insert(entries, key, val)|
    ensures var k := Insert(entries, key, val)[i].key;
      k == key || exists j :: 0 <= j < |entries| && entries[j].key == k
  {
    var result := Insert(entries, key, val);
    if entries == [] {
    } else if Less(key, entries[0].key) {
      assert i > 0 ==> result[i] == entries[i - 1];
    } else if entries[0].key == key {
      assert i > 0 ==> result[i] == entries[i];
    } else if i > 0 {
      InsertKeys(entries[1..], key, val, i - 1);
      if result[i].key != key {
        var j :| 0 <= j < |entries[1..]| && entries[1..][j].key == result[i].key;
        assert entries[j + 1].key == result[i].key;
      }
    }
  }

  lemma {:induction false} InsertSorts(entries: seq<Entry>, key: U16OrStr, val: U16OrStr)
    requires Sorted(entries)
    ensures Sorted(Insert(entries, key, val))
    ensures |entries| <= |Insert(entries, key, val)| <= |entries| + 1
  {
    if entries != [] {
      var first, rest := entries[0], entries[1..];
      Trichotomy(key, first.key);
      if Less(key, first.key) {
        forall j | 0 <= j < |entries|
          ensures Less(key, entries[j].key)
        {
          if j > 0 {
            Transitive(key, first.key, entries[j].key);
          }
        }
      } else if first.key != key {
        InsertSorts(rest, key, val);
        forall i | 0 <= i < |Insert(rest, key, val)|
          ensures Less(first.key, Insert(rest, key, val)[i].key)
        {
          InsertKeys(rest, key, val, i);
        }
      }
    }
  }

  /** Storing under one key changes what is found there and nowhere else. */
  lemma {:induction false} InsertLaw(entries: seq<Entry>, key: U16OrStr, val: U16OrStr, q: U16OrStr)
    requires Sorted(entries)
    ensures Lookup(Insert(entries, key, val), q) == if q == key then Some(val) else Lookup(entries, q)
  {
    if entries != [] {
      Trichotomy(key, entries[0].key);
      var result := Insert(entries, key, val);
      if Less(key, entries[0].key) {
        assert result[1..] == entries;
      } else if entries[0].key == key {
        assert result[1..] == entries[1..];
      } else {
        InsertLaw(entries[1..], key, val, q);
        assert result[1..] == Insert(entries[1..], key, val);
      }
    }
  }

  lemma {:induction false} LookupAbove(entries: seq<Entry>, key: U16OrStr)
    requires forall i :: 0 <= i < |entries| ==> Less(key, entries[i].key)
    ensures Lookup(entries, key) == None
  {
    if entries != [] {
      Trichotomy(key, entries[0].key);
      LookupAbove(entries[1..], key);
    }
  }

  lemma {:induction false} RemoveLaw(entries: seq<Entry>, key: U16OrStr, q: U16OrStr)
    requires Sorted(entries)
    ensures Lookup(Remove(entries, key), q) == if q == key then None else Lookup(entries, q)
  {
    if entries != [] {
      if entries[0].key == key {
        LookupAbove(entries[1..], key);
      } else {
        RemoveLaw(entries[1..], key, q);
        assert Remove(entries, key)[1..] == Remove(entries[1..], key);
      }
    }
  }

  /** A key above all the others goes to the end. */
  lemma {:induction false} InsertLast(entries: seq<Entry>, e: Entry)
    requires Sorted(entries + [e])
    ensures Insert(entries, e.key, e.val) == entries + [e]
  {
    if entries != [] {
      assert (entries + [e])[0] == entries[0] && (entries + [e])[|entries|] == e;
      Trichotomy(e.key, entries[0].key);
      assert entries + [e] == [entries[0]] + (entries[1..] + [e]);
      assert forall i :: 0 <= i < |entries[1..] + [e]| ==> (entries[1..] + [e])[i] == (entries + [e])[i + 1];
      InsertLast(entries[1..], e);
    }
  }

  function EncodeKey(k: U16OrStr): seq<Byte> {
    match k
    case Num(n) => EncodeU16(n)
    case Str(t) => EncodeText(t)
  }

  /** The form is told by the wire type alone: any integer that fits, or a string. */
  function DecodeKey(bs: seq<Byte>): Decoded<U16OrStr> {
    match DecodeScalar(bs)
    case Err(e) => Err(e)
    case Ok((Int(n), rest)) => if 0 <= n < U16_LIMIT then Ok((Num(n), rest)) else Err(OutOfRange)
    case Ok((Utf8(t), rest)) => Ok((Str(t), rest))
    case Ok(_) => Err(Unsupported)
  }

  lemma KeyRoundTrip(k: U16OrStr, tail: seq<Byte>)
    ensures DecodeKey(EncodeKey(k) + tail) == Ok((k, tail))
  {
    match k
    case Num(n) => U16RoundTrip(n, tail);
    case Str(t) => TextRoundTrip(t, tail);
  }

  function EncodePair(e: Entry): seq<Byte> {
    EncodeKey(e.key) + EncodeKey(e.val)
  }

  function EncodeEntries(entries: seq<Entry>): seq<Byte> {
    if entries == [] then []
    else EncodeEntries(entries[..|entries| - 1]) + EncodePair(entries[|entries| - 1])
  }

  function DecodePair(bs: seq<Byte>): Decoded<Entry> {
    match DecodeKey(bs)
    case Err(e) => Err(e)
    case Ok((key, afterKey)) =>
      match DecodeKey(afterKey)
      case Err(e) => Err(e)
      case Ok((val, rest)) => Ok((Entry(key, val), rest))
  }

  /** Read `n` pairs into an empty map, later pairs winning. */
  function DecodeEntries(n: nat, bs: seq<Byte>): Decoded<seq<Entry>> {
    if n == 0 then Ok(([], bs))
    else
      match DecodeEntries(n - 1, bs)
      case Err(e) => Err(e)
      case Ok((entries, rest)) => StorePair(entries, DecodePair(rest))
  }

  function StorePair(entries: seq<Entry>, pair: Decoded<Entry>): Decoded<seq<Entry>> {
    match pair
    case Err(e) => Err(e)
    case Ok((e, rest)) => Ok((Insert(entries, e.key, e.val), rest))
  }

  /** What was decoded, if anything, is in key order and has at most `n` entries. */
  predicate InOrder(decoded: Decoded<seq<Entry>>, n: nat) {
    decoded.Ok? ==> Sorted(decoded.value.0) && |decoded.value.0| <= n
  }

  lemma StoreKeepsOrder(entries: seq<Entry>, pair: Decoded<Entry>, n: nat)
    requires Sorted(entries) && |entries| <= n
    ensures InOrder(StorePair(entries, pair), n + 1)
  {
    if pair.Ok? {
      InsertSorts(entries, pair.value.0.key, pair.value.0.val);
    }
  }

  /** Storing a pair whose key is above all the others puts it at the end. */
  lemma StoreLast(entries: seq<Entry>, rest: seq<Byte>)
    requires Sorted(entries) && entries != []
    ensures StorePair(entries[..|entries| - 1], Ok((entries[|entries| - 1], rest))) == Ok((entries, rest))
  {
    var n := |entries| - 1;
    assert entries == entries[..n] + [entries[n]];
    InsertLast(entries[..n], entries[n]);
  }

  lemma PairRoundTrip(e: Entry, more: seq<Byte>)
    ensures DecodePair(EncodePair(e) + more) == Ok((e, more))
  {
    Associate(EncodeKey(e.key), EncodeKey(e.val), more);
    KeyRoundTrip(e.key, EncodeKey(e.val) + more);
    KeyRoundTrip(e.val, more);
  }

  /** Entries written in key order come back as they were. */
  lemma {:induction false} EntriesRoundTrip(entries: seq<Entry>, tail: seq<Byte>)
    requires Sorted(entries)
    ensures DecodeEntries(|entries|, EncodeEntries(entries) + tail) == Ok((entries, tail))
  {
    if entries == [] {
      assert [] + tail == tail;
    } else {
      var n := |entries| - 1;
      var front, last := entries[..n], entries[n];
      Associate(EncodeEntries(front), EncodePair(last), tail);
      EntriesRoundTrip(front, EncodePair(last) + tail);
      PairRoundTrip(last, tail);
      StoreLast(entries, tail);
    }
  }

  /** A pair that cannot be read fails the whole map. */
  lemma {:induction false} EntriesFail(k: nat, n: nat, bs: seq<Byte>)
    requires k <= n && DecodeEntries(k, bs).Err?
    ensures DecodeEntries(n, bs) == DecodeEntries(k, bs)
    decreases n - k
  {
    if k < n {
      EntriesFail(k + 1, n, bs);
    }
  }

  /** Whatever pairs arrive, in whatever order, the map built from them is in key order. */
  lemma {:induction false} DecodedIsSorted(n: nat, bs: seq<Byte>)
    ensures InOrder(DecodeEntries(n, bs), n)
  {
    if n > 0 {
      DecodedIsSorted(n - 1, bs);
      var before := DecodeEntries(n - 1, bs);
      if before.Ok? {
        StoreKeepsOrder(before.value.0, DecodePair(before.value.1), n - 1);
      }
    }
  }

  function EncodeHeaders(headers: Option<Headers>): seq<Byte> {
    match headers
    case None => NIL
    case Some(entries) => EncodeMapHeader(|entries|) + EncodeEntries(entries)
  }

  /** The map whose header was read. */
  function DecodeMap(n: nat, rest: seq<Byte>): Decoded<Option<Headers>> {
    if n >= U32_LIMIT then Err(Unsupported)
    else
      match DecodeEntries(n, rest)
      case Err(e) => Err(e)
      case Ok((entries, after)) => DecodedIsSorted(n, rest); Ok((Some(entries), after))
  }

  /** The header table that begins with a value. */
  function DecodeFrom(first: Scalar, rest: seq<Byte>): Decoded<Option<Headers>> {
    match first
    case Nil => Ok((None, rest))
    case Map(n) => DecodeMap(n, rest)
    case _ => Err(Unsupported)
  }

  function DecodeHeaders(bs: seq<Byte>): Decoded<Option<Headers>> {
    match DecodeScalar(bs)
    case Err(e) => Err(e)
    case Ok((first, rest)) => DecodeFrom(first, rest)
  }

  /** A header map, absent, empty or filled, comes back as it was, and what follows is untouched. */
  lemma HeadersRoundTrip(headers: Option<Headers>, tail: seq<Byte>)
    ensures DecodeHeaders(EncodeHeaders(headers) + tail) == Ok((headers, tail))
  {
    match headers
    case None => NilRoundTrip(tail);
    case Some(entries) =>
      Associate(EncodeMapHeader(|entries|), EncodeEntries(entries), tail);
      MapHeaderRoundTrip(|entries|, EncodeEntries(entries) + tail);
      EntriesRoundTrip(entries, tail);
  }

  lemma KeyExtends(bs: seq<Byte>, more: seq<Byte>)
    requires DecodeKey(bs).Ok?
    ensures DecodeKey(bs + more) == Ok((DecodeKey(bs).value.0, DecodeKey(bs).value.1 + more))
  {
    ScalarExtends(bs, more);
  }

  lemma PairExtends(bs: seq<Byte>, more: seq<Byte>)
    requires DecodePair(bs).Ok?
    ensures DecodePair(bs + more) == Ok((DecodePair(bs).value.0, DecodePair(bs).value.1 + more))
  {
    KeyExtends(bs, more);
    KeyExtends(DecodeKey(bs).value.1, more);
  }

  lemma StoreExtends(entries: seq<Entry>, rest: seq<Byte>, more: seq<Byte>, all: seq<Entry>, left: seq<Byte>)
    requires StorePair(entries, DecodePair(rest)) == Ok((all, left))
    ensures StorePair(entries, DecodePair(rest + more)) == Ok((all, left + more))
  {
    PairExtends(rest, more);
  }

  lemma {:induction false} EntriesExtend(n: nat, bs: seq<Byte>, more: seq<Byte>, entries: seq<Entry>, rest: seq<Byte>)
    requires DecodeEntries(n, bs) == Ok((entries, rest))
    ensures DecodeEntries(n, bs + more) == Ok((entries, rest + more))
  {
    if n > 0 {
      var m := n - 1;
      var (before, mid) := DecodeEntries(m, bs).value;
      EntriesExtend(m, bs, more, before, mid);
      StoreExtends(before, mid, more, entries, rest);
    }
  }

  lemma HeadersExtend(bs: seq<Byte>, more: seq<Byte>)
    requires DecodeHeaders(bs).Ok?
    ensures DecodeHeaders(bs + more) == Ok((DecodeHeaders(bs).value.0, DecodeHeaders(bs).value.1 + more))
  {
    ScalarExtends(bs, more);
    var (first, rest) := DecodeScalar(bs).value;
    if first.Map? {
      var (entries, left) := DecodeEntries(first.count, rest).value;
      EntriesExtend(first.count, rest, more, entries, left);
    }
  }
}
