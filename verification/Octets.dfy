/** Bytes, big-endian numbers and concatenation. */
module Octets {

  type Byte = b: int | 0 <= b < 256

  /** 256 to the power `width`: how many values `width` bytes can hold. */
  function Span(width: nat): (p: nat)
    ensures p >= 1
  {
    if width == 0 then 1 else 256 * Span(width - 1)
  }

  /** The `width`-byte big-endian form of `n`. */
  function BigEndian(n: nat, width: nat): (bs: seq<Byte>)
    requires n < Span(width)
    ensures |bs| == width
  {
    if width == 0 then [] else BigEndian(n / 256, width - 1) + [n % 256]
  }

  /** The number a big-endian byte sequence stands for. */
  function FromBigEndian(bs: seq<Byte>): (n: nat)
    ensures n < Span(|bs|)
  {
    if bs == [] then 0 else FromBigEndian(bs[..|bs| - 1]) * 256 + bs[|bs| - 1]
  }

  lemma {:induction false} BigEndianRoundTrip(n: nat, width: nat)
    requires n < Span(width)
    ensures FromBigEndian(BigEndian(n, width)) == n
  {
    if width > 0 {
      BigEndianRoundTrip(n / 256, width - 1);
      assert BigEndian(n, width)[..width - 1] == BigEndian(n / 256, width - 1);
    }
  }

  /** Two bytes spelled out: the form every chunk header takes. */
  lemma TwoBytes(n: nat)
    requires n < 0x1_0000
    ensures Span(2) == 0x1_0000
    ensures BigEndian(n, 2) == [n / 256, n % 256]
    ensures FromBigEndian([n / 256, n % 256]) == n
  {
    assert Span(1) == 256 * Span(0);
    assert BigEndian(n / 256, 1) == BigEndian(n / 256 / 256, 0) + [n / 256 % 256];
    BigEndianRoundTrip(n, 2);
  }

  lemma Associate<T>(a: seq<T>, b: seq<T>, c: seq<T>)
    ensures a + b + c == a + (b + c)
  {
  }

  /** `rest` is what is left of `all` after some of its front was taken. */
  predicate TailOf<T(==)>(rest: seq<T>, all: seq<T>) {
    |rest| <= |all| && rest == all[|all| - |rest|..]
  }

  /** Taking more of the front leaves a tail again. */
  lemma TailOfTail<T>(all: seq<T>, rest: seq<T>, n: nat)
    requires TailOf(rest, all) && n <= |rest|
    ensures TailOf(rest[n..], all)
  {
  }

  function Concat<T>(parts: seq<seq<T>>): seq<T> {
    if parts == [] then [] else parts[0] + Concat(parts[1..])
  }

  lemma {:induction false} ConcatAppend<T>(xs: seq<seq<T>>, ys: seq<seq<T>>)
    ensures Concat(xs + ys) == Concat(xs) + Concat(ys)
  {
    if xs == [] {
      assert xs + ys == ys;
    } else {
      ConcatAppend(xs[1..], ys);
      assert (xs + ys)[0] == xs[0] && (xs + ys)[1..] == xs[1..] + ys;
      Associate(xs[0], Concat(xs[1..]), Concat(ys));
    }
  }

  lemma ConcatSnoc<T>(xs: seq<seq<T>>, y: seq<T>)
    ensures Concat(xs + [y]) == Concat(xs) + y
  {
    ConcatAppend(xs, [y]);
    assert Concat([y]) == y + Concat([]);
  }
}
