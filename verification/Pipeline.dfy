/**
 * One unary body in flight: an encoder fills a 64-byte ring, a chunk sender drains the ring
 * into a bounded channel, and a chunk reader takes the channel apart at the far end. The
 * three move in any interleaving; `Enabled` and `Apply` say what each may do next. A failed or
 * cancelled sender takes no further step.
 */
module Pipeline {
  import opened Wrappers
  import opened Octets
  import opened Demands
  import opened ChunkFormat
  import opened ChunkedEncode

  const RING: nat := 64

  /** Where the sender is in its loop. */
  datatype Sender =
    | Deciding                // about to look at both ends
    | Reading(cap: nat)       // waiting for at most `cap` bytes from the ring
    | Writing(len: nat)       // holding `len` ring bytes, waiting for room for the frame
    | Ending                  // waiting for room for the terminator
    | Done
    | Halted                  // failed or cancelled

  datatype Pipe = Pipe(
    capacity: nat,            // of the channel
    unsent: seq<Byte>,        // not yet encoded
    closed: bool,             // the ring's write half was closed
    ring: seq<Byte>,
    sender: Sender,
    channel: seq<Byte>,
    head: seq<Byte>,          // header bytes the reader has collected
    left: nat,                // bytes left in the reader's chunk
    ended: bool,              // the reader has seen the terminator
    delivered: seq<Byte>)
  {
    function Free(): nat {
      SatSub(capacity, |channel|)
    }
  }

  function Start(capacity: nat, payload: seq<Byte>): Pipe {
    Pipe(capacity, payload, false, [], Deciding, [], [], 0, false, [])
  }

  datatype Action =
    | Encode(n: nat)          // write `n` bytes into the ring
    | Close                   // close the ring's write half
    | Decide                  // fix the size of the next chunk
    | Borrow(n: nat)          // get a segment of `n` ring bytes
    | SeeEnd                  // the ring is empty and closed
    | Send                    // write the frame
    | SendEnd                 // write the terminator
    | Collect(n: nat)         // take `n` header bytes
    | Deliver(n: nat)         // take `n` payload bytes

  predicate Enabled(p: Pipe, a: Action) {
    match a
    case Encode(n) => 1 <= n <= |p.unsent| && |p.ring| + n <= RING && !p.closed
    case Close => p.unsent == [] && !p.closed
    case Decide => p.sender.Deciding?
    case Borrow(n) => p.sender.Reading? && 1 <= n <= |p.ring| && n <= p.sender.cap
    case SeeEnd => p.sender.Reading? && p.ring == [] && p.closed
    case Send =>
      && p.sender.Writing? && p.sender.len <= |p.ring| && p.sender.len <= MAX_CHUNK
      && 2 + p.sender.len <= p.Free()
    case SendEnd => p.sender.Ending? && 2 <= p.Free()
    case Collect(n) => !p.ended && p.left == 0 && 1 <= n <= |p.channel| && |p.head| + n <= 2
    case Deliver(n) => !p.ended && 1 <= n <= p.left && n <= |p.channel|
  }

  function Apply(p: Pipe, a: Action): Pipe
    requires Enabled(p, a)
  {
    match a
    case Encode(n) => p.(unsent := p.unsent[n..], ring := p.ring + p.unsent[..n])
    case Close => p.(closed := true)
    case Decide =>
      // The ring always reports its state, and so does the channel.
      if p.closed && p.ring == [] then p.(sender := Ending)
      else p.(sender := Reading(ChunkCap(Some((|p.ring|, p.closed)), Some((p.Free(), false)))))
    case Borrow(n) => p.(sender := Writing(n))
    case SeeEnd => p.(sender := Ending)
    case Send =>
      var len := p.sender.len;
      p.(sender := Deciding, ring := p.ring[len..], channel := p.channel + Frame(p.ring[..len]))
    case SendEnd => p.(sender := Done, channel := p.channel + TERMINATOR)
    case Collect(n) =>
      var head := p.head + p.channel[..n];
      var q := p.(channel := p.channel[n..]);
      if |head| < 2 then q.(head := head)
      else if HeaderLen(head) == 0 then q.(head := [], ended := true)
      else q.(head := [], left := HeaderLen(head))
    case Deliver(n) =>
      p.(channel := p.channel[n..], left := p.left - n, delivered := p.delivered + p.channel[..n])
  }

  /** What the reader still gets from the bytes already in the channel. */
  function InFlight(p: Pipe): Reading {
    if p.ended then Complete([], p.channel) else Remaining(p.left, p.head + p.channel)
  }

  /** The order of the bytes: delivered, in the channel, in the ring, not yet encoded. */
  ghost predicate Conserved(p: Pipe, payload: seq<Byte>) {
    payload == p.delivered + InFlight(p).payload + p.ring + p.unsent
  }

  /** What the sender's place in its loop says about the channel. */
  ghost predicate SenderInv(p: Pipe) {
    match p.sender
    case Deciding => InFlight(p).Boundary?
    case Reading(cap) => InFlight(p).Boundary? && 1 <= cap <= MAX_CHUNK && 2 + cap <= Max(p.Free(), 3)
    case Writing(len) => InFlight(p).Boundary? && 1 <= len <= |p.ring| && 2 + len <= Max(p.Free(), 3)
    case Ending => InFlight(p).Boundary? && p.ring == [] && p.closed
    case Done => InFlight(p).Complete? && InFlight(p).rest == [] && p.ring == [] && p.closed
    case Halted => InFlight(p).Boundary?
  }

  ghost predicate Inv(p: Pipe, payload: seq<Byte>) {
    && |p.ring| <= RING && |p.channel| <= p.capacity
    && (p.closed ==> p.unsent == [])
    && |p.head| <= 1 && (p.left > 0 || p.ended ==> p.head == []) && (p.ended ==> p.left == 0)
    && Conserved(p, payload) && SenderInv(p)
  }

  predicate Finished(p: Pipe) {
    p.sender.Done? && p.ended
  }

  lemma StartInv(capacity: nat, payload: seq<Byte>)
    ensures Inv(Start(capacity, payload), payload)
  {
    assert Start(capacity, payload).head + [] == [];
  }

  /** The encoder moves bytes from one place to the next. */
  lemma EncodeKeepsInv(p: Pipe, n: nat, payload: seq<Byte>)
    requires Inv(p, payload) && Enabled(p, Encode(n))
    ensures Inv(Apply(p, Encode(n)), payload)
  {
    var front := p.delivered + InFlight(p).payload;
    assert p.unsent == p.unsent[..n] + p.unsent[n..];
    Associate(front + p.ring, p.unsent[..n], p.unsent[n..]);
    Associate(front, p.ring, p.unsent[..n]);
  }

  /** A frame written behind whole frames adds its chunk to what is in flight. */
  lemma SendKeepsInv(p: Pipe, payload: seq<Byte>)
    requires Inv(p, payload) && Enabled(p, Send)
    ensures Inv(Apply(p, Send), payload)
  {
    var c, rest := p.ring[..p.sender.len], p.ring[p.sender.len..];
    var wire, flying := p.head + p.channel, InFlight(p).payload;
    Associate(p.head, p.channel, Frame(c));
    Resume(p.left, wire, Frame(c));
    FrameFirst(c, []);
    assert Frame(c) + [] == Frame(c) && Deframe([]) == Boundary([]) && c + [] == c;
    assert InFlight(Apply(p, Send)) == Boundary(flying + c);
    assert p.ring == c + rest;
    Associate(p.delivered, flying, c);
    Associate(p.delivered + flying, c, rest);
  }

  lemma SendEndKeepsInv(p: Pipe, payload: seq<Byte>)
    requires Inv(p, payload) && Enabled(p, SendEnd)
    ensures Inv(Apply(p, SendEnd), payload)
  {
    Associate(p.head, p.channel, TERMINATOR);
    Resume(p.left, p.head + p.channel, TERMINATOR);
    var flying := InFlight(p).payload;
    assert TERMINATOR[..2] == TERMINATOR && TERMINATOR[2..] == [];
    assert Deframe(TERMINATOR) == Complete([], []) && flying + [] == flying;
  }

  /** Two header bytes taken off the front of the wire open the chunk, or end the body. */
  lemma HeaderOpens(head: seq<Byte>, rest: seq<Byte>)
    requires |head| == 2
    ensures Deframe(head + rest) ==
      if HeaderLen(head) == 0 then Complete([], rest) else Remaining(HeaderLen(head), rest)
  {
    assert (head + rest)[..2] == head && (head + rest)[2..] == rest;
  }

  /** Collecting header bytes does not change what the reader still gets. */
  lemma CollectKeepsFlight(p: Pipe, n: nat)
    requires Enabled(p, Collect(n))
    ensures InFlight(Apply(p, Collect(n))) == InFlight(p)
  {
    var head, rest := p.head + p.channel[..n], p.channel[n..];
    assert p.channel == p.channel[..n] + rest;
    Associate(p.head, p.channel[..n], rest);
    if |head| == 2 {
      HeaderOpens(head, rest);
      assert [] + rest == rest;
    }
  }

  lemma CollectKeepsInv(p: Pipe, n: nat, payload: seq<Byte>)
    requires Inv(p, payload) && Enabled(p, Collect(n))
    ensures Inv(Apply(p, Collect(n)), payload)
  {
    CollectKeepsFlight(p, n);
  }

  lemma DeliverTakesFlight(p: Pipe, n: nat)
    requires Enabled(p, Deliver(n)) && p.head == []
    ensures InFlight(p) == InFlight(Apply(p, Deliver(n))).After(p.channel[..n])
  {
    assert [] + p.channel == p.channel && [] + p.channel[n..] == p.channel[n..];
    TakeFromChunk(p.left, p.channel, n);
  }

  lemma DeliverKeepsInv(p: Pipe, n: nat, payload: seq<Byte>)
    requires Inv(p, payload) && Enabled(p, Deliver(n))
    ensures Inv(Apply(p, Deliver(n)), payload)
  {
    DeliverTakesFlight(p, n);
    Associate(p.delivered, p.channel[..n], InFlight(Apply(p, Deliver(n))).payload);
  }

  /** Every step of every party keeps the invariant. */
  lemma StepKeepsInv(p: Pipe, a: Action, payload: seq<Byte>)
    requires Inv(p, payload) && Enabled(p, a)
    ensures Inv(Apply(p, a), payload)
  {
    match a
    case Encode(n) => EncodeKeepsInv(p, n, payload);
    case Send => SendKeepsInv(p, payload);
    case SendEnd => SendEndKeepsInv(p, payload);
    case Collect(n) => CollectKeepsInv(p, n, payload);
    case Deliver(n) => DeliverKeepsInv(p, n, payload);
    case Close =>
    case Decide =>
    case Borrow(_) =>
    case SeeEnd =>
  }

  /** Until everything is delivered somebody can move, given room for a one-byte frame. */
  lemma SomebodyCanMove(p: Pipe, payload: seq<Byte>) returns (a: Action)
    requires Inv(p, payload) && p.capacity >= 3 && !Finished(p) && !p.sender.Halted?
    ensures Enabled(p, a)
  {
    if p.channel != [] && !p.ended {
      a := if p.left > 0 then Deliver(1) else Collect(1);
    } else {
      assert p.channel == [] ==> p.head + p.channel == p.head;
      match p.sender
      case Deciding => a := Decide;
      case Reading(cap) =>
        if p.ring != [] {
          a := Borrow(1);
        } else if p.closed {
          a := SeeEnd;
        } else {
          a := if p.unsent == [] then Close else Encode(1);
        }
      case Writing(_) => a := Send;
      case Ending => a := SendEnd;
      case Done => assert false;
    }
  }

  /** Work left to do; every step lowers it. */
  function Work(p: Pipe): nat {
    10 * |p.unsent| + 9 * |p.ring| + |p.channel|
    + (if p.closed then 0 else 1)
    + (match p.sender
       case Deciding => 6
       case Reading(_) => 5
       case Writing(_) => 4
       case Ending => 3
       case Done => 0
       case Halted => 0)
  }

  /** Every step lowers the work left, given that no frame is empty. */
  lemma StepLowersWork(p: Pipe, a: Action)
    requires Enabled(p, a) && (p.sender.Writing? ==> p.sender.len >= 1)
    ensures Work(Apply(p, a)) < Work(p)
  {
    var q := Apply(p, a);
    match a
    case Encode(n) => assert |q.unsent| == |p.unsent| - n && |q.ring| == |p.ring| + n;
    case Send => assert |q.ring| == |p.ring| - p.sender.len && |q.channel| == |p.channel| + 2 + p.sender.len;
    case SendEnd => assert |q.channel| == |p.channel| + 2;
    case Collect(n) => assert |q.channel| == |p.channel| - n;
    case Deliver(n) => assert |q.channel| == |p.channel| - n;
    case Close =>
    case Decide =>
    case Borrow(_) =>
    case SeeEnd =>
  }

  /** A step to `q` keeps the invariant and the capacity and lowers the work left. */
  lemma StepToKeepsInv(p: Pipe, a: Action, q: Pipe, payload: seq<Byte>)
    requires Inv(p, payload) && Enabled(p, a) && q == Apply(p, a)
    ensures Inv(q, payload) && q.capacity == p.capacity && Work(q) < Work(p)
  {
    StepKeepsInv(p, a, payload);
    StepLowersWork(p, a);
  }

  /** A run: consecutive states joined by enabled actions. */
  ghost predicate IsRun(states: seq<Pipe>, actions: seq<Action>) {
    && |states| == |actions| + 1
    && forall i :: 0 <= i < |actions| ==>
      Enabled(states[i], actions[i]) && states[i + 1] == Apply(states[i], actions[i])
  }

  lemma RunPrefix(states: seq<Pipe>, actions: seq<Action>)
    requires IsRun(states, actions) && actions != []
    ensures IsRun(states[..|actions|], actions[..|actions| - 1])
    ensures states[..|actions|][0] == states[0] && states[..|actions|][|actions| - 1] == states[|actions| - 1]
  {
  }

  lemma RunCons(p: Pipe, a: Action, states: seq<Pipe>, actions: seq<Action>)
    requires IsRun(states, actions) && Enabled(p, a) && states[0] == Apply(p, a)
    ensures IsRun([p] + states, [a] + actions)
    ensures ([p] + states)[|actions| + 1] == states[|actions|]
  {
    forall i | 0 <= i < |[a] + actions|
      ensures Enabled(([p] + states)[i], ([a] + actions)[i])
        && ([p] + states)[i + 1] == Apply(([p] + states)[i], ([a] + actions)[i])
    {
      if i > 0 {
        assert ([p] + states)[i] == states[i - 1] && ([a] + actions)[i] == actions[i - 1];
      }
    }
  }

  lemma {:induction false} RunKeepsInv(states: seq<Pipe>, actions: seq<Action>, payload: seq<Byte>)
    requires IsRun(states, actions) && Inv(states[0], payload)
    ensures Inv(states[|actions|], payload) && states[|actions|].capacity == states[0].capacity
    ensures Work(states[|actions|]) + |actions| <= Work(states[0])
    decreases |actions|
  {
    if actions != [] {
      var n := |actions| - 1;
      RunPrefix(states, actions);
      RunKeepsInv(states[..n + 1], actions[..n], payload);
      StepToKeepsInv(states[n], actions[n], states[n + 1], payload);
    }
  }

  /** No step of the pipeline halts the sender or revives it. */
  lemma {:induction false} RunKeepsHalt(states: seq<Pipe>, actions: seq<Action>)
    requires IsRun(states, actions)
    ensures states[|actions|].sender.Halted? <==> states[0].sender.Halted?
    decreases |actions|
  {
    if actions != [] {
      RunPrefix(states, actions);
      RunKeepsHalt(states[..|actions|], actions[..|actions| - 1]);
    }
  }

  /** Nobody can move. */
  ghost predicate Stopped(p: Pipe) {
    forall a :: !Enabled(p, a)
  }

  /**
   * Every run over a channel with room for three bytes is finite, with a bound known at the
   * start, and a run that cannot go on has delivered the whole payload and drained the channel.
   */
  lemma EveryRunDelivers(capacity: nat, payload: seq<Byte>, states: seq<Pipe>, actions: seq<Action>)
    requires capacity >= 3 && IsRun(states, actions) && states[0] == Start(capacity, payload)
    ensures |actions| <= 10 * |payload| + 7
    ensures var last := states[|actions|];
      Stopped(last) ==> last.delivered == payload && last.ended && last.channel == []
  {
    StartInv(capacity, payload);
    RunKeepsHalt(states, actions);
    RunKeepsInv(states, actions, payload);
    var last := states[|actions|];
    if Stopped(last) {
      if !Finished(last) {
        var a := SomebodyCanMove(last, payload);
        assert false;
      }
      assert last.delivered + [] + [] + [] == last.delivered;
    }
  }

  /** In any reachable state the delivered bytes are a front of the payload. */
  lemma DeliveredIsFront(capacity: nat, payload: seq<Byte>, states: seq<Pipe>, actions: seq<Action>)
    requires IsRun(states, actions) && states[0] == Start(capacity, payload)
    ensures states[|actions|].delivered <= payload
  {
    StartInv(capacity, payload);
    RunKeepsInv(states, actions, payload);
    assert Conserved(states[|actions|], payload);
  }

  /** From any state some run goes on until nobody can move. */
  lemma SomeRunFinishes(p: Pipe, payload: seq<Byte>) returns (states: seq<Pipe>, actions: seq<Action>)
    requires Inv(p, payload) && p.capacity >= 3 && !p.sender.Halted?
    ensures IsRun(states, actions) && states[0] == p
    ensures Finished(states[|actions|])
    decreases Work(p)
  {
    if Finished(p) {
      states, actions := [p], [];
    } else {
      var a := SomebodyCanMove(p, payload);
      StepKeepsInv(p, a, payload);
      StepLowersWork(p, a);
      var q := Apply(p, a);
      states, actions := SomeRunFinishes(q, payload);
      RunCons(p, a, states, actions);
      states, actions := [p] + states, [a] + actions;
    }
  }

  /** A channel without room for three bytes: no frame ever fits. */
  ghost predicate Stuck(p: Pipe, payload: seq<Byte>) {
    && p.capacity < 3 && p.channel == [] && p.delivered == [] && !p.ended && p.left == 0 && p.head == []
    && payload == p.ring + p.unsent
    && (p.sender.Deciding? || p.sender.Reading? || p.sender.Writing?)
    && (p.sender.Writing? ==> p.sender.len >= 1)
  }

  /** With less room, a payload that is not empty never gets through, whatever the schedule. */
  lemma {:induction false} NoRunDelivers(capacity: nat, payload: seq<Byte>, states: seq<Pipe>, actions: seq<Action>)
    requires capacity < 3 && payload != [] && IsRun(states, actions) && states[0] == Start(capacity, payload)
    ensures Stuck(states[|actions|], payload) && (states[|actions|].closed ==> states[|actions|].unsent == [])
    decreases |actions|
  {
    if actions == [] {
      assert [] + payload == payload;
    } else {
      var n := |actions| - 1;
      RunPrefix(states, actions);
      NoRunDelivers(capacity, payload, states[..n + 1], actions[..n]);
      var p, a := states[n], actions[n];
      if a.Encode? {
        assert p.unsent == p.unsent[..a.n] + p.unsent[a.n..];
        Associate(p.ring, p.unsent[..a.n], p.unsent[a.n..]);
      } else if a.Decide? || a.SeeEnd? {
        assert p.ring == [] && p.closed ==> payload == [];
      }
    }
  }

  ghost predicate CanDeliver(capacity: nat, payload: seq<Byte>) {
    exists states: seq<Pipe>, actions: seq<Action> ::
      IsRun(states, actions) && states[0] == Start(capacity, payload)
      && states[|actions|].ended && states[|actions|].delivered == payload
  }

  /** With room for less than the terminator even an empty payload never gets through. */
  lemma {:induction false} NoRunEnds(capacity: nat, states: seq<Pipe>, actions: seq<Action>)
    requires capacity < 2 && IsRun(states, actions) && states[0] == Start(capacity, [])
    ensures var p := states[|actions|];
      && p.capacity == capacity && p.channel == [] && p.ring == [] && p.unsent == [] && !p.ended && p.left == 0
      && !p.sender.Writing?
    decreases |actions|
  {
    if actions != [] {
      var n := |actions| - 1;
      RunPrefix(states, actions);
      NoRunEnds(capacity, states[..n + 1], actions[..n]);
    }
  }

  /** The run of an empty payload. */
  lemma EmptyRun(capacity: nat) returns (states: seq<Pipe>, actions: seq<Action>)
    requires capacity >= 2
    ensures IsRun(states, actions) && states[0] == Start(capacity, [])
    ensures states[|actions|].ended && states[|actions|].delivered == []
  {
    var p0 := Start(capacity, []);
    var p1 := Apply(p0, Close);
    var p2 := Apply(p1, Decide);
    var p3 := Apply(p2, SendEnd);
    assert [] + TERMINATOR == TERMINATOR && TERMINATOR[..2] == TERMINATOR;
    var p4 := Apply(p3, Collect(2));
    states, actions := [p0, p1, p2, p3, p4], [Close, Decide, SendEnd, Collect(2)];
  }

  /** Room for three bytes is exactly what a payload needs to get through, and for two if it is empty. */
  lemma DeliveryNeedsRoomForThree(capacity: nat, payload: seq<Byte>)
    ensures CanDeliver(capacity, payload) <==> capacity >= if payload == [] then 2 else 3
  {
    if payload == [] && capacity >= 2 {
      var states, actions := EmptyRun(capacity);
    } else if payload == [] {
      forall states: seq<Pipe>, actions: seq<Action> | IsRun(states, actions) && states[0] == Start(capacity, payload)
        ensures !states[|actions|].ended
      {
        NoRunEnds(capacity, states, actions);
      }
    } else if capacity >= 3 {
      var p := Start(capacity, payload);
      StartInv(capacity, payload);
      var states, actions := SomeRunFinishes(p, payload);
      RunKeepsInv(states, actions, payload);
      var last := states[|actions|];
      assert last.delivered + [] + [] + [] == last.delivered;
    } else {
      forall states: seq<Pipe>, actions: seq<Action> | IsRun(states, actions) && states[0] == Start(capacity, payload)
        ensures !states[|actions|].ended
      {
        NoRunDelivers(capacity, payload, states, actions);
      }
    }
  }

  /** The sender stops where it is: a source or target error, or a cancellation. */
  function Fail(p: Pipe): Pipe {
    p.(sender := Halted)
  }

  /**
   * A failure at any point loses and repeats nothing, and however the others go on, the reader
   * never takes what it got for a finished body.
   */
  lemma FailureKeepsBytes(p: Pipe, payload: seq<Byte>, states: seq<Pipe>, actions: seq<Action>)
    requires Inv(p, payload) && !p.sender.Done?
    requires IsRun(states, actions) && states[0] == Fail(p)
    ensures Conserved(states[|actions|], payload) && !states[|actions|].ended
  {
    assert InFlight(Fail(p)) == InFlight(p) && InFlight(p).Boundary?;
    RunKeepsHalt(states, actions);
    RunKeepsInv(states, actions, payload);
  }

  /** With the sender gone, encoded and unencoded bytes together stay as many as they are. */
  lemma {:induction false} RingOnlyFills(states: seq<Pipe>, actions: seq<Action>)
    requires IsRun(states, actions) && states[0].sender.Halted?
    ensures states[|actions|].sender.Halted?
    ensures |states[|actions|].ring| + |states[|actions|].unsent| == |states[0].ring| + |states[0].unsent|
    decreases |actions|
  {
    if actions != [] {
      RunPrefix(states, actions);
      RingOnlyFills(states[..|actions|], actions[..|actions| - 1]);
    }
  }

  /** Whether the encoder, which closes the ring when it returns, still can. */
  ghost predicate EncoderCanReturn(p: Pipe) {
    exists states: seq<Pipe>, actions: seq<Action> ::
      IsRun(states, actions) && states[0] == p && states[|actions|].closed
  }

  lemma EncoderReturnsIfItFits(p: Pipe) returns (states: seq<Pipe>, actions: seq<Action>)
    requires p.closed || |p.ring| + |p.unsent| <= RING
    ensures IsRun(states, actions) && states[0] == p && states[|actions|].closed
  {
    if p.closed {
      states, actions := [p], [];
    } else if p.unsent == [] {
      states, actions := [p, Apply(p, Close)], [Close];
    } else {
      var full := Apply(p, Encode(|p.unsent|));
      states, actions := [p, full, Apply(full, Close)], [Encode(|p.unsent|), Close];
    }
  }

  /** Whether it does in every run that cannot go on; every run comes to such an end. */
  ghost predicate EncoderAlwaysReturns(p: Pipe) {
    forall states: seq<Pipe>, actions: seq<Action> ::
      IsRun(states, actions) && states[0] == p && Stopped(states[|actions|]) ==> states[|actions|].closed
  }

  /** From any state some run goes on until nobody can move. */
  lemma SomeRunStops(p: Pipe, payload: seq<Byte>) returns (states: seq<Pipe>, actions: seq<Action>)
    requires Inv(p, payload)
    ensures IsRun(states, actions) && states[0] == p && Stopped(states[|actions|])
    decreases Work(p)
  {
    if Stopped(p) {
      states, actions := [p], [];
    } else {
      var a :| Enabled(p, a);
      StepToKeepsInv(p, a, Apply(p, a), payload);
      states, actions := SomeRunStops(Apply(p, a), payload);
      RunCons(p, a, states, actions);
      states, actions := [p] + states, [a] + actions;
    }
  }

  /** What does not fit into the ring keeps the encoder from ever closing it. */
  lemma NeverClosesUnlessItFits(p: Pipe, payload: seq<Byte>, states: seq<Pipe>, actions: seq<Action>)
    requires Inv(p, payload) && p.sender.Halted? && !p.closed && |p.ring| + |p.unsent| > RING
    requires IsRun(states, actions) && states[0] == p
    ensures !states[|actions|].closed
  {
    RingOnlyFills(states, actions);
    RunKeepsInv(states, actions, payload);
  }

  /** An encoder whose bytes fit can always write on or close. */
  lemma StoppedIsClosed(p: Pipe)
    requires Stopped(p) && |p.ring| + |p.unsent| <= RING
    ensures p.closed
  {
    assert !Enabled(p, Encode(1)) && !Enabled(p, Close);
  }

  lemma {:induction false} ClosedStays(states: seq<Pipe>, actions: seq<Action>)
    requires IsRun(states, actions) && states[0].closed
    ensures states[|actions|].closed
    decreases |actions|
  {
    if actions != [] {
      RunPrefix(states, actions);
      ClosedStays(states[..|actions|], actions[..|actions| - 1]);
    }
  }

  lemma EncoderReturnsInEveryRun(p: Pipe, payload: seq<Byte>)
    requires Inv(p, payload) && p.sender.Halted? && (p.closed || |p.ring| + |p.unsent| <= RING)
    ensures EncoderAlwaysReturns(p)
  {
    forall states: seq<Pipe>, actions: seq<Action>
      | IsRun(states, actions) && states[0] == p && Stopped(states[|actions|])
      ensures states[|actions|].closed
    {
      if p.closed {
        ClosedStays(states, actions);
      } else {
        RingOnlyFills(states, actions);
        StoppedIsClosed(states[|actions|]);
      }
    }
  }

  /**
   * After the sender has failed the encoder returns, in some run or in all of them, exactly when what
   * it has left fits into the ring; otherwise it waits in all of them for room that nobody makes, and
   * so does the join of the two. Every run is finite.
   */
  lemma EncoderReturnsAfterFailure(p: Pipe, payload: seq<Byte>)
    requires Inv(p, payload) && p.sender.Halted?
    ensures EncoderCanReturn(p) <==> p.closed || |p.ring| + |p.unsent| <= RING
    ensures EncoderAlwaysReturns(p) <==> p.closed || |p.ring| + |p.unsent| <= RING
    ensures forall states: seq<Pipe>, actions: seq<Action> ::
      IsRun(states, actions) && states[0] == p ==> |actions| <= Work(p)
  {
    forall states: seq<Pipe>, actions: seq<Action> | IsRun(states, actions) && states[0] == p
      ensures |actions| <= Work(p)
    {
      RunKeepsInv(states, actions, payload);
    }
    if p.closed || |p.ring| + |p.unsent| <= RING {
      var states, actions := EncoderReturnsIfItFits(p);
      EncoderReturnsInEveryRun(p, payload);
    } else {
      var states, actions := SomeRunStops(p, payload);
      NeverClosesUnlessItFits(p, payload, states, actions);
      forall states: seq<Pipe>, actions: seq<Action> | IsRun(states, actions) && states[0] == p
        ensures !states[|actions|].closed
      {
        NeverClosesUnlessItFits(p, payload, states, actions);
      }
    }
  }
}
