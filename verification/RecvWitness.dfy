/** A heap order in which the insertion loop of `push` loses bytes (src/stream.rs). */
module RecvWitness {
  import opened Prelude
  import opened Chunks
  import opened RecvSpec
  import opened RecvCompleteness

  function Zeros(n: nat): seq<byte> {
    seq(n, _ => 0)
  }

  /** Chunks 3..5, 10..12 and 6..8, in the order a binary heap stores them when they
      are inserted in this sequence; then the chunk 5..15 arrives. */
  const HEAP: seq<RangeBuf> :=
    [RangeBuf(Zeros(2), 3, false), RangeBuf(Zeros(2), 10, false), RangeBuf(Zeros(2), 6, false)]
  const ARRIVAL: RangeBuf := RangeBuf(Zeros(10), 5, false)

  lemma FirstPass()
    ensures Pass(HEAP, ARRIVAL, None) == Fits(RangeBuf(Zeros(1), 5, false), Some(RangeBuf(Zeros(4), 6, false)))
  {
    var left, right := ARRIVAL.Head(5), ARRIVAL.Tail(5);
    assert left == RangeBuf(Zeros(5), 5, false);
    assert left.Head(1) == RangeBuf(Zeros(1), 5, false) && left.Tail(1) == RangeBuf(Zeros(4), 6, false);
    assert HEAP[1..] == [HEAP[1], HEAP[2]] && HEAP[1..][1..] == [HEAP[2]];
    assert Visit(HEAP[0], ARRIVAL, None) == Fits(ARRIVAL, None);
    assert Visit(HEAP[1], ARRIVAL, None) == Fits(left, Some(right));
    assert Pass([HEAP[2]], left, Some(right)) == Fits(left.Head(1), Some(left.Tail(1)));
  }

  /** How the heap stores its chunks after 5..6 was inserted: it goes up past 10..12. */
  const HEAP_AFTER: seq<RangeBuf> := [HEAP[0], REMNANT[0], HEAP[2], HEAP[1]]
  const REMNANT: seq<RangeBuf> := [RangeBuf(Zeros(1), 5, false), RangeBuf(Zeros(2), 8, false)]

  lemma SecondPass()
    ensures Pass(HEAP_AFTER, RangeBuf(Zeros(4), 6, false), None) == Fits(REMNANT[1], None)
  {
    var rest, last := RangeBuf(Zeros(4), 6, false), RangeBuf(Zeros(2), 8, false);
    assert rest.Tail(2) == last;
    var h := HEAP_AFTER;
    assert h[1..] == [h[1], h[2], h[3]] && h[1..][1..] == [h[2], h[3]] && [h[2], h[3]][1..] == [h[3]];
    assert Pass([h[3]], last, None) == Fits(last, None);
    assert Pass([h[2], h[3]], rest, None) == Fits(last, None);
    assert Pass(h[1..], rest, None) == Fits(last, None);
  }

  lemma RestFilled()
    ensures Filled(Store(HEAP + [REMNANT[0]], 12), 0, RangeBuf(Zeros(4), 6, false), [HEAP_AFTER],
                   Store(HEAP + REMNANT, 12))
  {
    hide Pass;
    SecondPass();
    var mid := HEAP + [REMNANT[0]];
    assert mid == [HEAP[0], HEAP[1], HEAP[2], REMNANT[0]];
    assert multiset(HEAP_AFTER) == multiset(mid);
    assert mid + [REMNANT[1]] == HEAP + REMNANT;
  }

  lemma HeapFilled()
    ensures Filled(Store(HEAP, 12), 0, ARRIVAL, [HEAP, HEAP_AFTER], Store(HEAP + REMNANT, 12))
  {
    hide Pass;
    FirstPass();
    RestFilled();
    assert Added(Store(HEAP, 12), REMNANT[0]) == Store(HEAP + [REMNANT[0]], 12);
    assert [HEAP, HEAP_AFTER][1..] == [HEAP_AFTER];
  }

  function Witness(window: nat): Recv {
    Recv(HEAP, 0, 12, window, window, None, false)
  }

  lemma WitnessValid(window: nat)
    requires 15 <= window <= U64_MAX
    ensures Witness(window).Valid()
  {
    assert HEAP[0].MaxOff() == 5 && HEAP[1].MaxOff() == 12 && HEAP[2].MaxOff() == 8;
  }

  /** The witness is the buffer after three pushes. */
  lemma WitnessArises(window: nat)
    requires 15 <= window <= U64_MAX
    ensures var one := Initial(window).(data := [HEAP[0]], len := 5);
            var two := one.(data := [HEAP[0], HEAP[1]], len := 12);
            && one.Valid() && two.Valid()
            && Pushed(Initial(window), HEAP[0], [[]], Ok(()), one)
            && Pushed(one, HEAP[1], [one.data], Ok(()), two)
            && Pushed(two, HEAP[2], [two.data], Ok(()), Witness(window))
  {
    var one := Initial(window).(data := [HEAP[0]], len := 5);
    var two := one.(data := [HEAP[0], HEAP[1]], len := 12);
    assert [] + [HEAP[0]] == [HEAP[0]];
    PushMisses(Initial(window), HEAP[0]);
    assert one.data + [HEAP[1]] == two.data;
    PushMisses(one, HEAP[1]);
    assert two.data + [HEAP[2]] == HEAP;
    PushMisses(two, HEAP[2]);
  }

  /** The push succeeds, and bytes 12..15 of the input are nowhere in the buffer; the orders are
      those of heaps, the first one the order in which the chunks are stored. */
  lemma UnsortedHeapLosesTail(window: nat)
    requires 15 <= window <= U64_MAX
    ensures Witness(window).Valid()
    ensures HeapOrdered(HEAP) && HeapOrdered(HEAP_AFTER)
    ensures exists post ::
              && Pushed(Witness(window), ARRIVAL, [HEAP, HEAP_AFTER], Ok(()), post)
              && forall x :: 12 <= x < 15 ==> !Has(post.data, x)
  {
    hide Filled, Pass;
    WitnessValid(window);
    HeapFilled();
    HeapsOrdered();
    var post := Witness(window).(data := HEAP + REMNANT);
    assert Pushed(Witness(window), ARRIVAL, [HEAP, HEAP_AFTER], Ok(()), post);
    assert forall b :: b in post.data ==> b.MaxOff() <= 12;
  }

  lemma HeapsOrdered()
    ensures HeapOrdered(HEAP) && HeapOrdered(HEAP_AFTER)
  {
    assert HEAP_AFTER[0].off == 3 && HEAP_AFTER[1].off == 5 && HEAP_AFTER[2].off == 6 && HEAP_AFTER[3].off == 10;
  }
}
