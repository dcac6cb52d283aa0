/** The chunk reader: a read view that lends the payload of a chunked body and hides its framing. */
module ChunkedReader {
  import opened Wrappers
  import opened Octets
  import opened Demands
  import opened Channels
  import opened Readers
  import opened ChunkFormat

  datatype ReadError =
    | Ended
    | Malformed
    | Unsatisfied
    | WouldBlock
    | Cancelled
    | Inner(tag: ErrTag)

  /** What one borrow came to: `bytes` were moved out of a segment of `lent` bytes, or it failed. */
  datatype Outcome = Moved(bytes: seq<Byte>, lent: nat) | Failed(error: ReadError) {
    function Bytes(): seq<Byte> {
      if Moved? then bytes else []
    }
  }

  /** A reader's place: bytes left in the chunk, whether the terminator was read, and the wire ahead. */
  datatype Cursor = Cursor(left: nat, ended: bool, wire: seq<Byte>) {
    predicate Valid() {
      ended ==> left == 0
    }

    /** What the body still holds from here. */
    function Ahead(): Reading {
      if ended then Complete([], wire) else Remaining(left, wire)
    }

    predicate AtHeader() {
      !ended && left == 0
    }

    /** The place after the next chunk's header, if a non-empty chunk starts here. */
    function Opened(): Cursor {
      if AtHeader() && |wire| >= 2 && HeaderLen(wire[..2]) > 0
      then Cursor(HeaderLen(wire[..2]), false, wire[2..])
      else this
    }
  }

  /**
   * One borrow seen from outside: from place `a` to place `b`, asking for `demand` and moving
   * at most `appetite` bytes out of the segment before giving it back.
   */
  ghost predicate Step(a: Cursor, demand: Demand, appetite: nat, out: Outcome, b: Cursor) {
    match out
    case Moved(bytes, lent) =>
      var open := a.Opened();
      && !a.ended && 0 < open.left
      && lent <= open.left && lent <= |open.wire| && demand.Allows(lent)
      && |bytes| == (if appetite < lent then appetite else lent)
      && bytes <= open.wire
      && b == Cursor(open.left - |bytes|, false, open.wire[|bytes|..])
    case Failed(Ended) =>
      || (a.ended && b == a)
      || (a.AtHeader() && TERMINATOR <= a.wire && b == Cursor(0, true, a.wire[2..]))
    case Failed(WouldBlock) => a.AtHeader() && b == a
    case Failed(Unsatisfied) => 0 < a.Opened().left && b == a.Opened() && Narrow(demand, b.left).None?
    case Failed(Inner(tag)) =>
      && 0 < a.Opened().left && b == a.Opened() && Narrow(demand, b.left).Some?
      && (tag == Closing ==> b.wire == [] || |b.wire| < demand.least)
    case Failed(Malformed) => a.AtHeader() && (b == a || (Loses(a, b) && b == a.(wire := a.wire[1..])))
    case Failed(Cancelled) => b == a || b == a.Opened() || (Loses(a, b) && b == a.(wire := a.wire[1..]))
  }

  /** A failure after one header byte: the byte is gone and the place is not. */
  predicate Loses(a: Cursor, b: Cursor) {
    a.AtHeader() && b.AtHeader() && |b.wire| + 1 == |a.wire|
  }

  /**
   * What a borrow that may read headers comes to when nothing fails on the half: only the end of
   * the wire stops it, and it lends something wherever there is something to lend.
   */
  predicate Unhindered(a: Cursor, demand: Demand, out: Outcome) {
    match out
    case Moved(_, lent) => demand.Wants() && demand.Need() <= a.Opened().left ==> lent > 0
    case Failed(Malformed) => |a.wire| < 2
    case Failed(Inner(tag)) => tag == Closing
    case Failed(error) => !error.Cancelled?
  }

  lemma OpenedKeepsBody(a: Cursor)
    requires a.Valid()
    ensures a.Opened().Valid() && a.Opened().Ahead() == a.Ahead()
  {
  }

  /** A borrow in the chunk just opened is a borrow from the place before its header. */
  lemma StepAfterOpening(a: Cursor, demand: Demand, appetite: nat, out: Outcome, b: Cursor)
    requires !a.Opened().ended && 0 < a.Opened().left && Step(a.Opened(), demand, appetite, out, b)
    requires out.Failed? ==> !out.error.Ended? && !out.error.WouldBlock? && b == a.Opened()
    ensures Step(a, demand, appetite, out, b)
  {
  }

  /** What came of a borrow narrowed to the chunk, seen as a step. */
  lemma LentInChunk(a: Cursor, demand: Demand, narrowed: Demand, appetite: nat, steady: bool, taken: Taken,
                    out: Outcome, b: Cursor)
    requires a.Valid() && 0 < a.left && Narrow(demand, a.left) == Some(narrowed)
    requires out == if taken.Kept? then Failed(Inner(taken.tag)) else Moved(taken.bytes, taken.lent)
    requires a.wire == taken.Bytes() + b.wire && b.left == SatSub(a.left, |taken.Bytes()|) && !b.ended
    requires taken.Took? ==> narrowed.Allows(taken.lent) && taken.lent <= |a.wire|
    requires taken.Took? ==> |taken.bytes| == if appetite < taken.lent then appetite else taken.lent
    requires taken.Took? && steady && narrowed.Wants() ==> taken.lent > 0
    requires taken.Kept? ==> MayLend(b.wire, true, steady, narrowed, Refused(taken.tag))
    ensures Step(a, demand, appetite, out, b)
    ensures steady ==> Unhindered(a, demand, out)
  {
    assert narrowed.Allows(narrowed.least);
    assert narrowed.Need() == demand.Need();
    assert a.wire[|taken.Bytes()|..] == b.wire;
  }

  /** Taking the front of a chunk delivers exactly it. */
  lemma TakenFromOpen(open: Cursor, bytes: seq<Byte>)
    requires open.Valid() && 0 < open.left && |bytes| <= open.left && bytes <= open.wire
    ensures open.Ahead() == Cursor(open.left - |bytes|, false, open.wire[|bytes|..]).Ahead().After(bytes)
  {
    TakeFromChunk(open.left, open.wire, |bytes|);
    assert open.wire[..|bytes|] == bytes;
  }

  /** A step that does not lose a header byte delivers bytes of the body and leaves the rest of it. */
  lemma StepKeepsBody(a: Cursor, demand: Demand, appetite: nat, out: Outcome, b: Cursor)
    requires a.Valid() && Step(a, demand, appetite, out, b) && !Loses(a, b)
    ensures b.Valid() && a.Ahead() == b.Ahead().After(out.Bytes())
  {
    OpenedKeepsBody(a);
    AfterAfter(b.Ahead(), [], []);
    if out.Moved? {
      TakenFromOpen(a.Opened(), out.bytes);
    } else if out.error.Ended? && !a.ended {
      assert a.wire[..2] == TERMINATOR;
    }
  }

  /** Over a complete body an unhindered borrow that is content with one byte gets one, or the end. */
  lemma GreedyStepMoves(a: Cursor, demand: Demand, appetite: nat, out: Outcome, b: Cursor)
    requires a.Valid() && Step(a, demand, appetite, out, b) && Unhindered(a, demand, out) && out != Failed(WouldBlock)
    requires a.Ahead().Complete? && demand.Allows(1) && appetite > 0
    ensures !Loses(a, b) && (out.Bytes() != [] || b.ended) && (a.ended ==> b.ended)
  {
    OpenedKeepsBody(a);
    var open := a.Opened();
    if open.left > 0 {
      assert demand.Wants() && demand.Need() == 1 && |open.wire| >= open.left;
    }
  }

  /** Whatever comes of a borrow, the reader only ever moves forward on the wire. */
  lemma StepMovesForward(a: Cursor, demand: Demand, appetite: nat, out: Outcome, b: Cursor, all: seq<Byte>)
    requires Step(a, demand, appetite, out, b) && TailOf(a.wire, all)
    ensures TailOf(b.wire, all)
  {
    var open := a.Opened();
    assert open.wire == a.wire[|a.wire| - |open.wire|..];
    TailOfTail(all, a.wire, |a.wire| - |open.wire|);
    if out.Moved? {
      TailOfTail(all, open.wire, |out.bytes|);
    } else if b != a && b != open {
      var k := if Loses(a, b) then 1 else 2;
      assert b.wire == a.wire[k..];
      TailOfTail(all, a.wire, k);
    }
  }

  lemma {:induction false} FramesLength(chunks: seq<seq<Byte>>)
    requires AllSized(chunks)
    ensures |Frames(chunks)| == 2 * |chunks| + |Concat(chunks)|
  {
    if chunks != [] {
      FramesLength(chunks[1..]);
    }
  }

  /** A complete body of a known payload is an even number of bytes longer than it and what follows it. */
  lemma CompleteLength(wire: seq<Byte>, payload: seq<Byte>, rest: seq<Byte>) returns (frames: nat)
    requires Deframe(wire) == Complete(payload, rest)
    ensures |wire| == 2 * (frames + 1) + |payload| + |rest|
  {
    var chunks := DeframeIsExact(wire);
    FramesLength(chunks);
    frames := |chunks|;
  }

  /**
   * Over a complete body a borrow delivers the next bytes of it and leaves the rest exactly when it
   * did not break off after one header byte: one byte less is never the same body.
   */
  lemma BodyKeptUnlessByteLost(a: Cursor, demand: Demand, appetite: nat, out: Outcome, b: Cursor)
    requires a.Valid() && Step(a, demand, appetite, out, b) && a.Ahead().Complete?
    ensures a.Ahead() == b.Ahead().After(out.Bytes()) <==> !Loses(a, b)
  {
    if Loses(a, b) {
      AfterAfter(b.Ahead(), [], []);
      if a.Ahead() == b.Ahead() {
        var m := CompleteLength(a.wire, a.Ahead().payload, a.Ahead().rest);
        var n := CompleteLength(b.wire, a.Ahead().payload, a.Ahead().rest);
      }
    } else {
      StepKeepsBody(a, demand, appetite, out, b);
    }
  }

  /** A borrow that breaks off there: a body of one byte turns into one that breaks off. */
  lemma LosingAByteMisreads()
    ensures var a := Cursor(0, false, [0, 1, 7, 0, 0]);
      var b := Cursor(0, false, [1, 7, 0, 0]);
      && Step(a, NoMoreThan(1), 1, Failed(Malformed), b) && Loses(a, b)
      && a.Ahead() == Complete([7], [])
      && b.Ahead() == Torn([0, 0])
  {
    var wire: seq<Byte> := [0, 1, 7, 0, 0];
    assert wire[..2] == [0, 1] && wire[2..] == [7, 0, 0] && wire[2..][1..] == [0, 0];
    assert wire[1..] == [1, 7, 0, 0] && wire[1..][..2] == [1, 7] && wire[1..][2..] == [0, 0];
    assert Remaining(1, wire[2..]) == Remaining(0, [0, 0]).After(wire[2..][..1]);
    var two: seq<Byte> := [0, 0];
    assert two[..2] == two && two[2..] == [];
    assert Deframe(two) == Complete([], []);
  }

  /** Whatever was asked for, a borrow from `a` may fail with `error` at `b`; a steady one does so unhindered. */
  ghost predicate Stops(a: Cursor, error: ReadError, b: Cursor, steady: bool) {
    forall demand, appetite ::
      Step(a, demand, appetite, Failed(error), b) && (steady ==> Unhindered(a, demand, Failed(error)))
  }

  /** A read that was cancelled before it began. */
  lemma NotBegun(a: Cursor)
    ensures Stops(a, ReadError.Cancelled, a, false)
  {
  }

  /** The read of a header broke off after `head`. */
  lemma HeaderTorn(a: Cursor, head: seq<Byte>, error: ReadError, b: Cursor, steady: bool)
    requires a.AtHeader() && |head| < 2 && a.wire == head + b.wire && b == a.(wire := b.wire)
    requires error.Malformed? || (error.Cancelled? && !steady)
    requires steady ==> |a.wire| < 2
    ensures Stops(a, error, b, steady)
  {
    assert b.wire == a.wire[|head|..];
    assert head == [] ==> b.wire == a.wire;
  }

  /** A header was read: the reader stands in a chunk or at the end. */
  lemma HeaderRead(a: Cursor, head: seq<Byte>, b: Cursor, steady: bool)
    requires a.AtHeader() && |head| == 2 && a.wire == head + b.wire
    requires b == Cursor(HeaderLen(head), HeaderLen(head) == 0, b.wire)
    ensures !b.ended ==> b == a.Opened()
    ensures b.ended ==> Stops(a, Ended, b, steady)
  {
    assert a.wire[..2] == head && a.wire[2..] == b.wire;
    if b.ended {
      assert head == TERMINATOR;
      EndStops(a, b, steady);
    }
  }

  /** The end of the body stops any borrow, once it was read and when it is. */
  lemma EndStops(a: Cursor, b: Cursor, steady: bool)
    requires (a.ended && b == a) || (a.AtHeader() && TERMINATOR <= a.wire && b == Cursor(0, true, a.wire[2..]))
    ensures Stops(a, Ended, b, steady)
  {
    forall demand, appetite
      ensures Step(a, demand, appetite, Failed(Ended), b) && Unhindered(a, demand, Failed(Ended))
    {
    }
  }

  datatype Borrow = Borrow(demand: Demand, appetite: nat, out: Outcome)

  /** A reader's places, joined by borrows none of which loses a header byte. */
  datatype Run = At(start: Cursor) | Then(before: Run, borrow: Borrow, after: Cursor) {
    function First(): Cursor {
      if At? then start else before.First()
    }

    function Now(): Cursor {
      if At? then start else after
    }

    ghost predicate Sound() {
      if At? then start.Valid()
      else
        && before.Sound() && !Loses(before.Now(), after)
        && Step(before.Now(), borrow.demand, borrow.appetite, borrow.out, after)
    }

    function Delivered(): seq<Byte> {
      if At? then [] else before.Delivered() + borrow.out.Bytes()
    }
  }

  lemma {:induction false} RunKeepsBody(run: Run)
    requires run.Sound()
    ensures run.Now().Valid() && run.First().Ahead() == run.Now().Ahead().After(run.Delivered())
    decreases run
  {
    if run.At? {
      AfterAfter(run.start.Ahead(), [], []);
    } else {
      RunKeepsBody(run.before);
      var b := run.borrow;
      StepKeepsBody(run.before.Now(), b.demand, b.appetite, b.out, run.after);
      AfterAfter(run.after.Ahead(), run.before.Delivered(), b.out.Bytes());
    }
  }

  /**
   * Over every schedule of borrows, a reader of a complete body delivers a front of the payload,
   * and once it reports the end it has delivered all of it and stands at the first byte after
   * the terminator.
   */
  lemma RunDeliversPayload(run: Run, payload: seq<Byte>, tail: seq<Byte>)
    requires run.Sound() && run.First().AtHeader() && Deframe(run.First().wire) == Complete(payload, tail)
    ensures run.Delivered() <= payload
    ensures run.Now().ended ==> run.Delivered() == payload && run.Now().wire == tail
    ensures run.Delivered() == payload ==> run.Now().Ahead() == Complete([], tail)
  {
    RunKeepsBody(run);
    var last := run.Now().Ahead();
    assert last.Complete? && run.Delivered() + last.payload == payload;
    if run.Delivered() == payload {
      assert last.payload == [];
    }
  }

  /** A reader of a body that breaks off never reports the end, and delivers only bytes of it. */
  lemma RunOverBrokenBody(run: Run)
    requires run.Sound() && run.First().AtHeader() && !Deframe(run.First().wire).Complete?
    ensures run.Delivered() <= Deframe(run.First().wire).payload && !run.Now().ended
  {
    RunKeepsBody(run);
  }

  class ChunkedReader {
    const src: Port
    var chunkLeft: nat
    var ended: bool

    ghost predicate Valid()
      reads this, src.Views(), src.Base()
    {
      src.Valid() && src.Obeys() && Place().Valid()
    }

    ghost function Place(): Cursor
      requires src.Valid()
      reads this, src.Views(), src.Base()
    {
      Cursor(chunkLeft, ended, src.Pending())
    }

    constructor (src: Port)
      requires src.Valid() && src.Obeys()
      ensures Valid() && this.src == src && Place() == Cursor(0, false, src.Pending())
      ensures fresh(this)
    {
      this.src, chunkLeft, ended := src, 0, false;
    }

    /** Read the next header; `None` when the reader now stands in a chunk. */
    method OpenChunk() returns (stop: Option<ReadError>, ghost taken: seq<Byte>)
      requires Valid() && Place().AtHeader()
      modifies this, src.Views(), src.Base(), src.Base().channel
      ensures Valid() && Takes(old(src.Held()), taken, src.Held())
      ensures src.Trace() == old(src.Trace()) + Ins(taken)
      ensures stop.None? ==> chunkLeft > 0 && Place() == old(Place()).Opened()
      ensures stop.Some? ==> Stops(old(Place()), stop.value, Place(), src.Steady()) && !stop.value.WouldBlock?
    {
      ghost var start := Place();
      taken := [];
      TakesNothing(src.Held());
      var cancelledFirst: bool := *;
      if cancelledFirst && !src.Steady() {
        NotBegun(start);
        return Some(ReadError.Cancelled), taken;
      }
      var ok, head := ReadExact(src, 2);
      taken := head;
      if !ok {
        var cancelled: bool := *;
        stop := Some(if cancelled && !src.Steady() then ReadError.Cancelled else Malformed);
        HeaderTorn(start, head, stop.value, Place(), src.Steady());
        return;
      }
      var len := HeaderLen(head);
      ended, chunkLeft := len == 0, len;
      stop := if len == 0 then Some(Ended) else None;
      HeaderRead(start, head, Place(), src.Steady());
    }

    /** Borrow what the chunk may lend, and charge the chunk with what was moved out. */
    method TakeInChunk(narrowed: Demand, appetite: nat) returns (taken: Taken)
      requires Valid() && chunkLeft > 0
      requires narrowed.Allows(narrowed.least) && forall n: nat :: narrowed.Allows(n) ==> n <= chunkLeft
      modifies this`chunkLeft, src.Views(), src.Base(), src.Base().channel
      ensures Valid() && chunkLeft == SatSub(old(chunkLeft), |taken.Bytes()|)
      ensures Takes(old(src.Held()), taken.Bytes(), src.Held())
      ensures src.Trace() == old(src.Trace()) + Ins(taken.Bytes())
      ensures old(src.Pending()) == taken.Bytes() + src.Pending()
      ensures taken.Took? ==> narrowed.Allows(taken.lent) && taken.lent <= |old(src.Pending())|
      ensures taken.Took? ==> |taken.bytes| == if appetite < taken.lent then appetite else taken.lent
      ensures taken.Took? && src.Steady() && narrowed.Wants() ==> taken.lent > 0
      ensures taken.Kept? ==> MayLend(src.Pending(), true, src.Steady(), narrowed, Refused(taken.tag))
    {
      taken := Take(src, narrowed, appetite);
      TakesFront(old(src.Held()), taken.Bytes(), src.Held());
      label Back:
      chunkLeft := SatSub(chunkLeft, |taken.Bytes()|);
      assert unchanged@Back(src.Views(), src.Base(), src.Base().channel);
      assert src.Valid() && src.Held() == old@Back(src.Held());
    }

    /** Borrow inside the current chunk, move at most `appetite` bytes out and give the rest back. */
    method LendInChunk(demand: Demand, appetite: nat) returns (out: Outcome)
      requires Valid() && chunkLeft > 0
      modifies this, src.Views(), src.Base(), src.Base().channel
      ensures Valid() && Step(old(Place()), demand, appetite, out, Place())
      ensures Takes(old(src.Held()), out.Bytes(), src.Held())
      ensures src.Trace() == old(src.Trace()) + Ins(out.Bytes())
      ensures out.Failed? ==> !out.error.Ended? && !out.error.WouldBlock? && Place() == old(Place())
      ensures src.Steady() ==> Unhindered(old(Place()), demand, out)
    {
      var narrowed := Narrow(demand, chunkLeft);
      var cancelled: bool := *;
      if narrowed.Some? && (!cancelled || src.Steady()) {
        var taken := TakeInChunk(narrowed.value, appetite);
        out := if taken.Kept? then Failed(Inner(taken.tag)) else Moved(taken.bytes, taken.lent);
        LentInChunk(old(Place()), demand, narrowed.value, appetite, src.Steady(), taken, out, Place());
      } else {
        out := Failed(if narrowed.None? then ReadError.Unsatisfied else ReadError.Cancelled);
        TakesNothing(src.Held());
      }
    }

    /** Stand in a chunk, reading its header when there is none yet, or say why not. */
    method Enter() returns (stop: Option<ReadError>, ghost taken: seq<Byte>)
      requires Valid()
      modifies this, src.Views(), src.Base(), src.Base().channel
      ensures Valid() && Takes(old(src.Held()), taken, src.Held())
      ensures src.Trace() == old(src.Trace()) + Ins(taken)
      ensures stop.None? ==> chunkLeft > 0 && Place() == old(Place()).Opened()
      ensures stop.Some? ==> Stops(old(Place()), stop.value, Place(), src.Steady()) && !stop.value.WouldBlock?
    {
      stop, taken := None, [];
      TakesNothing(src.Held());
      if ended {
        EndStops(Place(), Place(), src.Steady());
        stop := Some(Ended);
      } else if chunkLeft == 0 {
        stop, taken := OpenChunk();
      }
    }

    method ReadAsync(demand: Demand, appetite: nat) returns (out: Outcome, ghost taken: seq<Byte>)
      requires Valid()
      modifies this, src.Views(), src.Base(), src.Base().channel
      ensures Valid() && Step(old(Place()), demand, appetite, out, Place())
      ensures out != Failed(WouldBlock) && (src.Steady() ==> Unhindered(old(Place()), demand, out))
      ensures Takes(old(src.Held()), taken, src.Held())
      ensures src.Trace() == old(src.Trace()) + Ins(taken)
    {
      var stop;
      stop, taken := Enter();
      if stop.Some? {
        return Failed(stop.value), taken;
      }
      ghost var held := src.Held();
      out := LendInChunk(demand, appetite);
      StepAfterOpening(old(Place()), demand, appetite, out, Place());
      TakesTwice(old(src.Held()), taken, held, out.Bytes(), src.Held());
      InsAppend(taken, out.Bytes());
      Associate(old(src.Trace()), Ins(taken), Ins(out.Bytes()));
      taken := taken + out.Bytes();
    }

    /** The synchronous borrow: it never reads a header. */
    method TryRead(demand: Demand, appetite: nat) returns (out: Outcome)
      requires Valid()
      modifies this, src.Views(), src.Base(), src.Base().channel
      ensures Valid() && Step(old(Place()), demand, appetite, out, Place())
      ensures out == Failed(WouldBlock) <==> old(Place()).AtHeader()
      ensures old(Place()).AtHeader() || old(ended) ==> Place() == old(Place())
      ensures src.Steady() ==> Unhindered(old(Place()), demand, out)
    {
      if ended {
        return Failed(Ended);
      }
      if chunkLeft == 0 {
        return Failed(WouldBlock);
      }
      out := LendInChunk(demand, appetite);
    }
  }
}
