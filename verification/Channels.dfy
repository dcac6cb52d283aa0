/**
 * Channels and the accounts kept over them: the trace of what happened to a channel's halves,
 * and what quotas leave of what a half holds.
 */
module Channels {
  import opened Wrappers
  import opened Octets
  import opened Demands

  /** What can happen to a channel: a byte is taken in, a byte is put out, the send half goes. */
  datatype Event = In(byte: Byte) | Out(byte: Byte) | HalfClosed

  function Ins(bytes: seq<Byte>): seq<Event> {
    if bytes == [] then [] else [In(bytes[0])] + Ins(bytes[1..])
  }

  function Outs(bytes: seq<Byte>): seq<Event> {
    if bytes == [] then [] else [Out(bytes[0])] + Outs(bytes[1..])
  }

  lemma {:induction false} InsAppend(a: seq<Byte>, b: seq<Byte>)
    ensures Ins(a + b) == Ins(a) + Ins(b)
  {
    if a == [] {
      assert a + b == b;
    } else {
      InsAppend(a[1..], b);
      assert (a + b)[1..] == a[1..] + b;
    }
  }

  lemma {:induction false} OutsAppend(a: seq<Byte>, b: seq<Byte>)
    ensures Outs(a + b) == Outs(a) + Outs(b)
  {
    if a == [] {
      assert a + b == b;
    } else {
      OutsAppend(a[1..], b);
      assert (a + b)[1..] == a[1..] + b;
    }
  }

  /** The channel two halves belong to, or one half alone: what happened to it, in order. */
  class Channel {
    ghost var trace: seq<Event>

    constructor ()
      ensures trace == []
    {
      trace := [];
    }
  }

  /** What a quota leaves of a report: no more than it covers, and an end once it is used up. */
  function UnderQuota(state: Option<(nat, bool)>, quota: nat): Option<(nat, bool)> {
    match state
    case None => None
    case Some((now, closed)) => Some((Least(now, quota), closed || quota == 0))
  }

  /** How many of `n` bytes some quotas cover. */
  function Cover(quotas: seq<nat>, n: nat): (m: nat)
    ensures m <= n
  {
    if quotas == [] then n else Least(quotas[0], Cover(quotas[1..], n))
  }

  lemma {:induction false} CoverAt(quotas: seq<nat>, n: nat, i: nat)
    requires i < |quotas|
    ensures Cover(quotas, n) <= quotas[i]
  {
    if i > 0 {
      CoverAt(quotas[1..], n, i - 1);
    }
  }

  function Least(a: nat, b: nat): nat {
    if a <= b then a else b
  }

  /** Every quota on the way pays for `n` bytes. */
  function Charge(quotas: seq<nat>, n: nat): (left: seq<nat>)
    ensures |left| == |quotas|
  {
    if quotas == [] then [] else [SatSub(quotas[0], n)] + Charge(quotas[1..], n)
  }

  lemma ChargeCons(quota: nat, quotas: seq<nat>, n: nat)
    ensures Charge([quota] + quotas, n) == [SatSub(quota, n)] + Charge(quotas, n)
  {
    assert ([quota] + quotas)[1..] == quotas;
  }

  lemma {:induction false} ChargeAt(quotas: seq<nat>, n: nat, i: nat)
    requires i < |quotas|
    ensures Charge(quotas, n)[i] == SatSub(quotas[i], n)
  {
    if i > 0 {
      ChargeAt(quotas[1..], n, i - 1);
    }
  }

  lemma {:induction false} ChargeTwice(quotas: seq<nat>, m: nat, n: nat)
    ensures Charge(Charge(quotas, m), n) == Charge(quotas, m + n)
  {
    if quotas != [] {
      ChargeTwice(quotas[1..], m, n);
      ChargeCons(SatSub(quotas[0], m), Charge(quotas[1..], m), n);
    }
  }

  lemma {:induction false} ChargeNothing(quotas: seq<nat>)
    ensures Charge(quotas, 0) == quotas
  {
    if quotas != [] {
      ChargeNothing(quotas[1..]);
    }
  }

  lemma CoverCons(quota: nat, quotas: seq<nat>, n: nat)
    ensures Cover([quota] + quotas, n) == Least(quota, Cover(quotas, n))
  {
    assert ([quota] + quotas)[1..] == quotas;
  }

  /** Quotas that paid for `paid` bytes and cover `n` but not `n + 1` still cover one more, or are used up. */
  lemma {:induction false} CoverGrows(quotas: seq<nat>, n: nat, paid: nat)
    ensures Cover(quotas, n) <= Cover(quotas, n + 1) <= Cover(quotas, n) + 1
    ensures paid < Cover(quotas, n + 1) ==> Cover(Charge(quotas, paid), 1) == 1
  {
    if quotas != [] {
      CoverGrows(quotas[1..], n, paid);
      ChargeCons(quotas[0], quotas[1..], paid);
      CoverCons(SatSub(quotas[0], paid), Charge(quotas[1..], paid), 1);
    }
  }

  /** What a port draws on: the bytes of its bare half, and the quotas of its views, outermost first. */
  datatype Supply = Stock(bytes: seq<Byte>, quotas: seq<nat>) {
    /** The bytes that come through. */
    function Pending(): seq<Byte> {
      bytes[..Cover(quotas, |bytes|)]
    }

    function After(n: nat): Supply
      requires n <= |bytes|
    {
      Stock(bytes[n..], Charge(quotas, n))
    }
  }

  /** `bytes` came through: they left the bare half, and every quota paid for them. */
  predicate Takes(before: Supply, bytes: seq<Byte>, after: Supply) {
    bytes <= before.Pending() && after == before.After(|bytes|)
  }

  lemma {:induction false} CoverAfter(quotas: seq<nat>, len: nat, n: nat)
    requires n <= Cover(quotas, len)
    ensures Cover(Charge(quotas, n), len - n) == Cover(quotas, len) - n
  {
    if quotas != [] {
      CoverAfter(quotas[1..], len, n);
      assert Charge(quotas, n)[1..] == Charge(quotas[1..], n);
    }
  }

  /** What came through was the front of what was to come, and of what the bare half held. */
  lemma TakesFront(before: Supply, bytes: seq<Byte>, after: Supply)
    requires Takes(before, bytes, after)
    ensures before.Pending() == bytes + after.Pending() && before.bytes == bytes + after.bytes
  {
    CoverAfter(before.quotas, |before.bytes|, |bytes|);
    assert before.bytes[..|bytes|] == before.Pending()[..|bytes|] == bytes;
  }

  lemma TakesTwice(a: Supply, x: seq<Byte>, b: Supply, y: seq<Byte>, c: Supply)
    requires Takes(a, x, b) && Takes(b, y, c)
    ensures Takes(a, x + y, c)
  {
    TakesFront(a, x, b);
    assert b.bytes[|y|..] == a.bytes[|x| + |y|..];
    ChargeTwice(a.quotas, |x|, |y|);
  }

  /** One more take, in what was drawn on and in the trace that had come to `before`. */
  lemma TakesOnce(before: seq<Event>, a: Supply, x: seq<Byte>, b: Supply, y: seq<Byte>, c: Supply)
    requires Takes(a, x, b) && Takes(b, y, c)
    ensures Takes(a, x + y, c) && before + Ins(x) + Ins(y) == before + Ins(x + y)
  {
    TakesTwice(a, x, b, y, c);
    InsAppend(x, y);
    Associate(before, Ins(x), Ins(y));
  }

  /** What came through the outermost quota came through the ones behind it, and it paid first. */
  lemma TakesWithin(quota: nat, before: Supply, bytes: seq<Byte>, left: nat, after: Supply)
    requires Takes(Stock(before.bytes, [quota] + before.quotas), bytes, Stock(after.bytes, [left] + after.quotas))
    ensures Takes(before, bytes, after) && |bytes| <= quota && left == quota - |bytes|
  {
    CoverCons(quota, before.quotas, |before.bytes|);
    ChargeCons(quota, before.quotas, |bytes|);
    assert after.quotas == ([left] + after.quotas)[1..] == Charge(before.quotas, |bytes|);
    assert left == ([left] + after.quotas)[0];
  }

  /** With no quota on the way, anything the half holds comes through. */
  lemma TakesBare(bytes: seq<Byte>, n: nat)
    requires n <= |bytes|
    ensures Stock(bytes, []).Pending() == bytes && Takes(Stock(bytes, []), bytes[..n], Stock(bytes[n..], []))
  {
    assert bytes[..|bytes|] == bytes;
  }

  lemma TakesNothing(s: Supply)
    ensures Takes(s, [], s)
  {
    ChargeNothing(s.quotas);
    assert s.bytes[0..] == s.bytes;
  }

  /** Where a reader stands: what it draws on, and what has happened to its channel. */
  datatype Standing = Standing(supply: Supply, trace: seq<Event>) {
    function Read(n: nat): Standing
      requires n <= |supply.bytes|
    {
      Standing(supply.After(n), trace + Ins(supply.bytes[..n]))
    }
  }

  /** From `a` to `b` nothing but a front of what was to come was taken in. */
  predicate Advanced(a: Standing, b: Standing) {
    var n := |a.supply.bytes| - |b.supply.bytes|;
    0 <= n <= |a.supply.Pending()| && b == a.Read(n)
  }

  lemma AdvancedBy(a: Standing, bytes: seq<Byte>, b: Standing)
    requires Takes(a.supply, bytes, b.supply) && b.trace == a.trace + Ins(bytes)
    ensures Advanced(a, b)
  {
    TakesFront(a.supply, bytes, b.supply);
    assert a.supply.bytes[..|bytes|] == bytes;
  }

  lemma AdvancedSelf(a: Standing)
    ensures Advanced(a, a)
  {
    TakesNothing(a.supply);
    assert a.trace + Ins([]) == a.trace;
    AdvancedBy(a, [], a);
  }

  lemma AdvancedTail(a: Standing, b: Standing)
    requires Advanced(a, b)
    ensures TailOf(b.supply.Pending(), a.supply.Pending())
  {
    var n := |a.supply.bytes| - |b.supply.bytes|;
    TakesFront(a.supply, a.supply.bytes[..n], b.supply);
  }

  /** The bytes taken in on the way. */
  lemma AdvancedFront(a: Standing, b: Standing) returns (bytes: seq<Byte>)
    requires Advanced(a, b)
    ensures a.supply.bytes == bytes + b.supply.bytes && b.trace == a.trace + Ins(bytes)
  {
    bytes := a.supply.bytes[..|a.supply.bytes| - |b.supply.bytes|];
  }

  lemma AdvancedTwice(a: Standing, b: Standing, c: Standing)
    requires Advanced(a, b) && Advanced(b, c)
    ensures Advanced(a, c)
  {
    var m, n := |a.supply.bytes| - |b.supply.bytes|, |b.supply.bytes| - |c.supply.bytes|;
    var x, y := a.supply.bytes[..m], b.supply.bytes[..n];
    TakesTwice(a.supply, x, b.supply, y, c.supply);
    InsAppend(x, y);
    Associate(a.trace, Ins(x), Ins(y));
    AdvancedBy(a, x + y, c);
  }

  /** What was delivered through a write half: its bytes, and what is left of the quotas on the way. */
  datatype Delivery = Tally(written: seq<Byte>, quotas: seq<nat>) {
    function Plus(bytes: seq<Byte>): Delivery {
      Tally(written + bytes, Charge(quotas, |bytes|))
    }
  }

  lemma PlusTwice(d: Delivery, a: seq<Byte>, b: seq<Byte>)
    ensures d.Plus(a).Plus(b) == d.Plus(a + b)
  {
    Associate(d.written, a, b);
    ChargeTwice(d.quotas, |a|, |b|);
  }

  /** Two writes in a row, in what was delivered and in the trace that had come to `before`. */
  lemma PutTwice(d: Delivery, before: seq<Event>, a: seq<Byte>, b: seq<Byte>)
    ensures d.Plus(a).Plus(b) == d.Plus(a + b)
    ensures before + Outs(a) + Outs(b) == before + Outs(a + b)
  {
    PlusTwice(d, a, b);
    OutsAppend(a, b);
    Associate(before, Outs(a), Outs(b));
  }

  /** What went through the outermost quota went through the ones behind it. */
  lemma PlusWithin(quota: nat, before: Delivery, bytes: seq<Byte>, left: nat, after: Delivery)
    requires Tally(after.written, [left] + after.quotas) == Tally(before.written, [quota] + before.quotas).Plus(bytes)
    ensures after == before.Plus(bytes) && left == SatSub(quota, |bytes|)
  {
    ChargeCons(quota, before.quotas, |bytes|);
    assert after.quotas == ([left] + after.quotas)[1..] == Charge(before.quotas, |bytes|);
    assert left == ([left] + after.quotas)[0];
  }

  lemma PlusNothing(d: Delivery)
    ensures d.Plus([]) == d
  {
    ChargeNothing(d.quotas);
    assert d.written + [] == d.written;
  }
}
