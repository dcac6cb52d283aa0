/**
 * The chunked body on the wire: `*chunk last-chunk`, a chunk being a 2-byte big-endian
 * length followed by that many bytes, and the last chunk being the length zero alone.
 *
 * `Frames` is the writing side of the format and `Remaining` the reading side, given where
 * inside a chunk the reader stands.
 */
module ChunkFormat {
  import opened Octets

  const MAX_CHUNK: nat := 65535

  const TERMINATOR: seq<Byte> := [0, 0]

  predicate Sized(chunk: seq<Byte>) {
    1 <= |chunk| <= MAX_CHUNK
  }

  predicate AllSized(chunks: seq<seq<Byte>>) {
    forall i :: 0 <= i < |chunks| ==> Sized(chunks[i])
  }

  function Header(len: nat): (h: seq<Byte>)
    requires len <= MAX_CHUNK
    ensures |h| == 2
  {
    [len / 256, len % 256]
  }

  function HeaderLen(head: seq<Byte>): (len: nat)
    requires |head| == 2
    ensures len <= MAX_CHUNK
  {
    (head[0] as int) * 256 + head[1]
  }

  /** The header is the two-byte big-endian number of the length. */
  lemma HeaderIsBigEndian(len: nat)
    requires len <= MAX_CHUNK
    ensures len < Span(2) && Header(len) == BigEndian(len, 2)
    ensures HeaderLen(Header(len)) == len == FromBigEndian(Header(len))
  {
    TwoBytes(len);
  }

  function Frame(chunk: seq<Byte>): seq<Byte>
    requires |chunk| <= MAX_CHUNK
  {
    Header(|chunk|) + chunk
  }

  function Frames(chunks: seq<seq<Byte>>): seq<Byte>
    requires AllSized(chunks)
  {
    if chunks == [] then [] else Frame(chunks[0]) + Frames(chunks[1..])
  }

  lemma {:induction false} FramesSnoc(chunks: seq<seq<Byte>>, c: seq<Byte>)
    requires AllSized(chunks) && Sized(c)
    ensures AllSized(chunks + [c])
    ensures Frames(chunks + [c]) == Frames(chunks) + Frame(c)
  {
    if chunks == [] {
      assert chunks + [c] == [c];
      assert Frames([c]) == Frame(c) + Frames([]);
    } else {
      FramesSnoc(chunks[1..], c);
      assert (chunks + [c])[1..] == chunks[1..] + [c];
    }
  }

  /**
   * What is left of a body for a reader, as far as the bytes at hand tell:
   * the terminator was found and `rest` follows it, or the bytes ran out between two
   * chunks, or they ran out inside a header or a chunk.
   */
  datatype Reading =
    | Complete(payload: seq<Byte>, rest: seq<Byte>)
    | Boundary(payload: seq<Byte>)
    | Torn(payload: seq<Byte>)
  {
    function After(before: seq<Byte>): Reading {
      match this
      case Complete(p, rest) => Complete(before + p, rest)
      case Boundary(p) => Boundary(before + p)
      case Torn(p) => Torn(before + p)
    }
  }

  /** `left` bytes of the current chunk are still to come, then headers and chunks. */
  function Remaining(left: nat, wire: seq<Byte>): Reading
    decreases |wire|, left
  {
    if left > 0 then
      if |wire| < left then Torn(wire)
      else Remaining(0, wire[left..]).After(wire[..left])
    else if wire == [] then Boundary([])
    else if |wire| == 1 then Torn([])
    else
      var len := HeaderLen(wire[..2]);
      if len == 0 then Complete([], wire[2..]) else Remaining(len, wire[2..])
  }

  function Deframe(wire: seq<Byte>): Reading {
    Remaining(0, wire)
  }

  lemma AfterAfter(r: Reading, a: seq<Byte>, b: seq<Byte>)
    ensures r.After(b).After(a) == r.After(a + b)
    ensures r.After([]) == r
  {
    assert a + (b + r.payload) == a + b + r.payload;
    assert [] + r.payload == r.payload;
  }

  /** What follows a complete body is a tail of the wire. */
  lemma {:induction false} RestIsTail(left: nat, wire: seq<Byte>)
    requires Remaining(left, wire).Complete?
    ensures TailOf(Remaining(left, wire).rest, wire)
    decreases |wire|, left
  {
    if left > 0 {
      RestIsTail(0, wire[left..]);
    } else if HeaderLen(wire[..2]) > 0 {
      RestIsTail(HeaderLen(wire[..2]), wire[2..]);
    }
  }

  /** Taking `k` bytes out of the current chunk delivers them and changes nothing else. */
  lemma TakeFromChunk(left: nat, wire: seq<Byte>, k: nat)
    requires k <= left && k <= |wire| && left > 0
    ensures Remaining(left, wire) == Remaining(left - k, wire[k..]).After(wire[..k])
  {
    if |wire| < left {
      assert wire == wire[..k] + wire[k..];
    } else if k < left {
      assert wire[k..][left - k..] == wire[left..];
      assert wire[..left] == wire[..k] + wire[k..][..left - k];
      AfterAfter(Remaining(0, wire[left..]), wire[..k], wire[k..][..left - k]);
    }
  }

  /** Bytes that stop between two chunks can be continued by any further bytes. */
  lemma {:induction false} Resume(left: nat, wire: seq<Byte>, more: seq<Byte>)
    requires Remaining(left, wire).Boundary?
    ensures Remaining(left, wire + more) == Deframe(more).After(Remaining(left, wire).payload)
    decreases |wire|, left
  {
    if left > 0 {
      assert (wire + more)[left..] == wire[left..] + more;
      assert (wire + more)[..left] == wire[..left];
      Resume(0, wire[left..], more);
      AfterAfter(Deframe(more), wire[..left], Remaining(0, wire[left..]).payload);
    } else if wire == [] {
      assert wire + more == more;
      AfterAfter(Deframe(more), [], []);
    } else {
      assert (wire + more)[..2] == wire[..2];
      assert (wire + more)[2..] == wire[2..] + more;
      Resume(HeaderLen(wire[..2]), wire[2..], more);
    }
  }

  /** One frame, followed by anything, yields its chunk first. */
  lemma FrameFirst(c: seq<Byte>, more: seq<Byte>)
    requires Sized(c)
    ensures Deframe(Frame(c) + more) == Deframe(more).After(c)
  {
    var wire := Frame(c) + more;
    assert wire[..2] == Header(|c|);
    HeaderIsBigEndian(|c|);
    assert wire[2..] == c + more;
    assert (c + more)[..|c|] == c && (c + more)[|c|..] == more;
    assert Remaining(|c|, c + more) == Deframe(more).After(c);
    assert Deframe(wire) == Remaining(|c|, wire[2..]);
  }

  lemma {:induction false} FramesFirst(chunks: seq<seq<Byte>>, more: seq<Byte>)
    requires AllSized(chunks)
    ensures Deframe(Frames(chunks) + more) == Deframe(more).After(Concat(chunks))
  {
    if chunks == [] {
      assert Frames(chunks) + more == more;
      AfterAfter(Deframe(more), [], []);
    } else {
      var rest := Frames(chunks[1..]);
      assert Frames(chunks) + more == Frame(chunks[0]) + (rest + more);
      FrameFirst(chunks[0], rest + more);
      FramesFirst(chunks[1..], more);
      AfterAfter(Deframe(more), chunks[0], Concat(chunks[1..]));
    }
  }

  /** A whole body followed by any tail reads back as its payload, up to the tail. */
  lemma BodyRoundTrip(chunks: seq<seq<Byte>>, tail: seq<Byte>)
    requires AllSized(chunks)
    ensures Deframe(Frames(chunks) + TERMINATOR + tail) == Complete(Concat(chunks), tail)
  {
    assert Frames(chunks) + TERMINATOR + tail == Frames(chunks) + (TERMINATOR + tail);
    FramesFirst(chunks, TERMINATOR + tail);
    assert (TERMINATOR + tail)[..2] == TERMINATOR;
    assert Deframe(TERMINATOR + tail) == Complete([], tail);
  }

  /** Frames with no terminator read back as their payload and as a body that has not ended. */
  lemma UnfinishedBody(chunks: seq<seq<Byte>>)
    requires AllSized(chunks)
    ensures Deframe(Frames(chunks)) == Boundary(Concat(chunks))
  {
    FramesFirst(chunks, []);
    assert Frames(chunks) + [] == Frames(chunks);
  }

  /** A header that fits its chunk splits the wire into that frame and what comes after. */
  lemma SplitFrame(wire: seq<Byte>) returns (c: seq<Byte>, after: seq<Byte>)
    requires |wire| >= 2 && 0 < HeaderLen(wire[..2]) <= |wire| - 2
    ensures Sized(c) && wire == Frame(c) + after
    ensures Deframe(wire) == Deframe(after).After(c)
  {
    var len := HeaderLen(wire[..2]);
    c, after := wire[2..2 + len], wire[2 + len..];
    assert Header(len) == wire[..2];
    assert wire == Frame(c) + after;
    FrameFirst(c, after);
  }

  ghost predicate WrittenAs(wire: seq<Byte>, chunks: seq<seq<Byte>>, reading: Reading)
    requires AllSized(chunks)
  {
    match reading
    case Complete(p, rest) => wire == Frames(chunks) + TERMINATOR + rest && Concat(chunks) == p
    case Boundary(p) => wire == Frames(chunks) && Concat(chunks) == p
    case Torn(_) => true
  }

  lemma WrittenAsCons(c: seq<Byte>, after: seq<Byte>, chunks: seq<seq<Byte>>, reading: Reading)
    requires Sized(c) && AllSized(chunks) && WrittenAs(after, chunks, reading)
    ensures AllSized([c] + chunks)
    ensures WrittenAs(Frame(c) + after, [c] + chunks, reading.After(c))
  {
    assert ([c] + chunks)[1..] == chunks;
    if reading.Complete? {
      assert Frame(c) + (Frames(chunks) + TERMINATOR + reading.rest)
          == Frame(c) + Frames(chunks) + TERMINATOR + reading.rest;
    }
  }

  /** The wire `Deframe` takes for a complete or unfinished body, and only that, is what `Frames` writes. */
  lemma {:induction false} DeframeIsExact(wire: seq<Byte>) returns (chunks: seq<seq<Byte>>)
    ensures AllSized(chunks) && WrittenAs(wire, chunks, Deframe(wire))
    decreases |wire|
  {
    chunks := [];
    if |wire| >= 2 {
      var len := HeaderLen(wire[..2]);
      if 0 < len <= |wire| - 2 {
        var c, after := SplitFrame(wire);
        var more := DeframeIsExact(after);
        WrittenAsCons(c, after, more, Deframe(after));
        chunks := [c] + more;
      } else if len == 0 {
        assert wire[..2] == TERMINATOR;
        assert wire == [] + TERMINATOR + wire[2..];
      } else {
        assert Deframe(wire) == Remaining(len, wire[2..]);
      }
    }
  }
}
