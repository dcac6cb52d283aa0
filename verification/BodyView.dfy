/** Reading a message body through its view, whatever the reader asks for and however little it uses. */
module BodyView {
  import opened Octets
  import opened Demands
  import opened Channels
  import opened Readers
  import opened ChunkFormat
  import ChunkedReader

  /**
   * Through a quota of `size` bytes; what is left of the quota is what was not delivered. Greedy
   * reads over a steady half that holds the whole body each get a byte of it until it is at its end.
   */
  method ReadSized(rx: Port, size: nat, wishes: seq<Wish>) returns (left: nat, ghost delivered: seq<Byte>)
    requires rx.Valid() && rx.Obeys()
    modifies rx.Views(), rx.Base(), rx.Base().channel
    ensures rx.Valid() && Advanced(old(rx.Stands()), rx.Stands())
    ensures old(rx.Pending()) == delivered + rx.Pending()
    ensures |delivered| <= size && left == size - |delivered|
    ensures rx.Steady() && Greedy(wishes) && size <= |old(rx.Pending())| ==> left == 0 || |delivered| >= |wishes|
  {
    ghost var held := rx.Held();
    var view := new LimitedReader(rx, size);
    ghost var start := view.Held();
    view.PendingWithin();
    ghost var parts;
    delivered, parts := BorrowMany(view, wishes);
    left := view.remaining;
    TakesWithin(size, held, delivered, left, rx.Held());
    TakesFront(held, delivered, rx.Held());
    AdvancedBy(old(rx.Stands()), delivered, rx.Stands());
  }

  /** How far reading a body got: what was delivered, and whether a read broke off inside a header. */
  datatype Gain = Gain(delivered: seq<Byte>, lost: bool) {
    /** Nothing lost, what was delivered and what is ahead of `place` make up the body. */
    predicate Of(whole: Reading, place: ChunkedReader.Cursor) {
      !lost ==> whole == place.Ahead().After(delivered)
    }

    /** Nothing is lost, and each of `turns` reads got a byte unless the end was seen. */
    predicate KeepsUp(ended: bool, turns: nat) {
      !lost && (ended || |delivered| >= turns)
    }
  }

  /** One borrow through the chunk reader, and what it does to what was gained so far. */
  method ReadOn(view: ChunkedReader.ChunkedReader, wish: Wish, ghost start: Standing, ghost whole: Reading,
                ghost gain: Gain, ghost turns: nat)
    returns (ghost all: Gain)
    requires view.Valid() && Advanced(start, view.src.Stands()) && gain.Of(whole, view.Place())
    modifies view, view.src.Views(), view.src.Base(), view.src.Base().channel
    ensures view.Valid() && Advanced(start, view.src.Stands()) && all.Of(whole, view.Place())
    ensures view.src.Steady() && whole.Complete? && Greedy([wish]) && gain.KeepsUp(old(view.ended), turns) ==>
      all.KeepsUp(view.ended, turns + 1)
  {
    ghost var a, mid := view.Place(), view.src.Stands();
    var out, taken := view.ReadAsync(wish.demand, wish.appetite);
    AdvancedBy(mid, taken, view.src.Stands());
    AdvancedTwice(start, mid, view.src.Stands());
    ghost var b := view.Place();
    all := Gain(gain.delivered + out.Bytes(), gain.lost || ChunkedReader.Loses(a, b));
    Gained(a, wish, view.src.Steady(), out, b, whole, gain, all, turns);
  }

  /** What one borrow does to what was gained, to what is ahead, and to the place. */
  lemma Gained(a: ChunkedReader.Cursor, wish: Wish, steady: bool, out: ChunkedReader.Outcome, b: ChunkedReader.Cursor,
               whole: Reading, gain: Gain, all: Gain, turns: nat)
    requires a.Valid() && ChunkedReader.Step(a, wish.demand, wish.appetite, out, b)
    requires steady ==> ChunkedReader.Unhindered(a, wish.demand, out)
    requires out != ChunkedReader.Failed(ChunkedReader.WouldBlock) && gain.Of(whole, a)
    requires all == Gain(gain.delivered + out.Bytes(), gain.lost || ChunkedReader.Loses(a, b))
    ensures all.Of(whole, b)
    ensures steady && whole.Complete? && Greedy([wish]) && gain.KeepsUp(a.ended, turns) ==>
      all.KeepsUp(b.ended, turns + 1)
  {
    if !all.lost {
      ChunkedReader.StepKeepsBody(a, wish.demand, wish.appetite, out, b);
      AfterAfter(b.Ahead(), gain.delivered, out.Bytes());
    }
    if steady && whole.Complete? && Greedy([wish]) && gain.KeepsUp(a.ended, turns) {
      assert [wish][0] == wish;
      ChunkedReader.GreedyStepMoves(a, wish.demand, wish.appetite, out, b);
    }
  }

  /**
   * Through the chunk reader; `lost` tells that a read broke off inside a header. Greedy reads of a
   * complete body over a steady half lose nothing and each get a byte of it until they see its end.
   */
  method ReadChunked(rx: Port, wishes: seq<Wish>)
    returns (ended: bool, ghost delivered: seq<Byte>, ghost place: ChunkedReader.Cursor, ghost lost: bool)
    requires rx.Valid() && rx.Obeys()
    modifies rx.Views(), rx.Base(), rx.Base().channel
    ensures rx.Valid() && Advanced(old(rx.Stands()), rx.Stands())
    ensures place.Valid() && place.wire == rx.Pending() && place.ended == ended
    ensures !lost ==> Deframe(old(rx.Pending())) == place.Ahead().After(delivered)
    ensures !lost && Deframe(old(rx.Pending())).Complete? ==>
      TailOf(Deframe(old(rx.Pending())).rest, rx.Pending())
    ensures rx.Steady() && Greedy(wishes) && Deframe(old(rx.Pending())).Complete? ==>
      !lost && (ended || |delivered| >= |wishes|)
  {
    var view := new ChunkedReader.ChunkedReader(rx);
    ghost var whole := Deframe(rx.Pending());
    AfterAfter(whole, [], []);
    ghost var gain := ReadThrough(view, wishes, whole);
    place, ended := view.Place(), view.ended;
    delivered, lost := gain.delivered, gain.lost;
    PlaceIsBeforeRest(place, delivered, whole, lost);
  }

  /** Any borrows through a view of a body that was not read from yet. */
  method ReadThrough(view: ChunkedReader.ChunkedReader, wishes: seq<Wish>, ghost whole: Reading)
    returns (ghost gain: Gain)
    requires view.Valid() && whole == view.Place().Ahead()
    modifies view, view.src.Views(), view.src.Base(), view.src.Base().channel
    ensures view.Valid() && Advanced(old(view.src.Stands()), view.src.Stands())
    ensures gain.Of(whole, view.Place())
    ensures view.src.Steady() && Greedy(wishes) && whole.Complete? ==> gain.KeepsUp(view.ended, |wishes|)
  {
    ghost var start := view.src.Stands();
    gain := Gain([], false);
    AfterAfter(whole, [], []);
    AdvancedSelf(start);
    var i := 0;
    while i < |wishes|
      invariant i <= |wishes| && view.Valid() && Advanced(start, view.src.Stands())
      invariant gain.Of(whole, view.Place())
      invariant view.src.Steady() && Greedy(wishes) && whole.Complete? ==> gain.KeepsUp(view.ended, i)
    {
      assert Greedy(wishes) ==> Greedy([wishes[i]]);
      gain := ReadOn(view, wishes[i], start, whole, gain, i);
      i := i + 1;
    }
  }

  lemma PlaceIsBeforeRest(place: ChunkedReader.Cursor, delivered: seq<Byte>, whole: Reading, lost: bool)
    requires place.Valid() && (!lost ==> whole == place.Ahead().After(delivered))
    ensures !lost && whole.Complete? ==> TailOf(whole.rest, place.wire)
  {
    if place.Ahead().Complete? && !place.ended {
      RestIsTail(place.left, place.wire);
    }
  }
}
