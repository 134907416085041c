/** Heaps of chunks that do not overlap, and reading from their low end: what `pop` of
    both stream buffers has in common. */
module ChunkHeap {
  import opened Prelude
  import opened Chunks

  /** The chunks are apart and lie within [off, len]; an empty one can only mark the
      final offset. */
  ghost predicate ValidChunks(data: seq<RangeBuf>, off: nat, len: nat, finOff: Option<nat>) {
    && Apart(data)
    && (forall b :: b in data ==> off <= b.off && b.MaxOff() <= len)
    && (forall b :: b in data && |b.data| == 0 ==> finOff == Some(b.off))
  }

  /** The heap after one turn of the `pop` loop. */
  function Consume(data: seq<RangeBuf>, n: nat): seq<RangeBuf>
    requires data != [] && n <= |data[Lowest(data)].data|
  {
    var i := Lowest(data);
    if n < |data[i].data| then Without(data, i) + [data[i].Tail(n)] else Without(data, i)
  }

  /** Taking the lowest chunk out leaves only chunks beyond it. */
  lemma OthersBeyond(data: seq<RangeBuf>)
    requires data != [] && Apart(data)
    ensures var b := data[Lowest(data)];
            forall c :: c in Without(data, Lowest(data)) ==> b.MaxOff() <= c.off && b.off < c.off
  {
    WithoutChunk(data, Lowest(data));
  }

  lemma ConsumeValid(data: seq<RangeBuf>, off: nat, len: nat, finOff: Option<nat>, n: nat)
    requires ValidChunks(data, off, len, finOff) && off <= len
    requires data != [] && data[Lowest(data)].off == off && n <= |data[Lowest(data)].data|
    ensures ValidChunks(Consume(data, n), off + n, len, finOff) && off + n <= len
    ensures Bytes(Consume(data, n)) + n == Bytes(data)
  {
    var b, others := data[Lowest(data)], Without(data, Lowest(data));
    WithoutChunk(data, Lowest(data));
    OthersBeyond(data);
    assert b in data;
    if n < |b.data| {
      AppendApart(others, b.Tail(n));
      BytesAppend(others, b.Tail(n));
    }
  }

  lemma ConsumeHolds(data: seq<RangeBuf>, n: nat, x: int, v: byte)
    requires data != [] && Apart(data) && n <= |data[Lowest(data)].data|
    ensures Holds(Consume(data, n), x, v) <==> Holds(data, x, v) && data[Lowest(data)].off + n <= x
  {
    var i := Lowest(data);
    var b, others := data[i], Without(data, i);
    assert forall c :: c in data <==> c == b || c in others by {
      WithoutChunk(data, i);
    }
    HoldsParts(data, b, others, x, v);
    assert Holds(others, x, v) ==> b.MaxOff() <= x by {
      OthersBeyond(data);
    }
    if n < |b.data| {
      HoldsParts(others + [b.Tail(n)], b.Tail(n), others, x, v);
    }
  }

  /** Each turn of the loop either empties the heap of a chunk or reads bytes. */
  lemma ConsumeShrinks(data: seq<RangeBuf>, n: nat)
    requires data != [] && n <= |data[Lowest(data)].data|
    ensures |Consume(data, n)| == if n < |data[Lowest(data)].data| then |data| else |data| - 1
  {
  }

  /** Midway through `pop`: `out` is what was read from `pre`, `data` is what is left. */
  ghost predicate Reading(pre: seq<RangeBuf>, start: nat, data: seq<RangeBuf>, out: seq<byte>) {
    && Bytes(data) + |out| == Bytes(pre)
    && (forall x, v :: Holds(data, x, v) <==> Holds(pre, x, v) && start + |out| <= x)
    && (forall k :: 0 <= k < |out| ==> Holds(pre, start + k, out[k]))
  }

  lemma ReadingStep(pre: seq<RangeBuf>, start: nat, data: seq<RangeBuf>, out: seq<byte>, n: nat, len: nat,
                    finOff: Option<nat>)
    requires Reading(pre, start, data, out)
    requires ValidChunks(data, start + |out|, len, finOff) && start + |out| <= len
    requires data != [] && data[Lowest(data)].off == start + |out| && n <= |data[Lowest(data)].data|
    ensures Reading(pre, start, Consume(data, n), out + data[Lowest(data)].data[..n])
    ensures ValidChunks(Consume(data, n), start + |out| + n, len, finOff) && start + |out| + n <= len
  {
    var b := data[Lowest(data)];
    var more := out + b.data[..n];
    ConsumeValid(data, start + |out|, len, finOff, n);
    forall x, v
      ensures Holds(Consume(data, n), x, v) <==> Holds(pre, x, v) && start + |more| <= x
    {
      ConsumeHolds(data, n, x, v);
    }
    forall k | 0 <= k < |more|
      ensures Holds(pre, start + k, more[k])
    {
      if k >= |out| {
        assert b in data && Stores(b, start + k, more[k]);
        assert Holds(data, start + k, more[k]);
      }
    }
  }

  /** With nothing at the read offset, the next byte is missing. */
  lemma NotReadyMissing(data: seq<RangeBuf>, off: nat)
    requires forall b :: b in data ==> off <= b.off
    requires data == [] || data[Lowest(data)].off != off
    ensures !Has(data, off)
  {
  }

  lemma ReadingStarts(heap: seq<RangeBuf>, start: nat, len: nat, finOff: Option<nat>)
    requires ValidChunks(heap, start, len, finOff)
    ensures Reading(heap, start, heap, [])
  {
    forall x, v
      ensures Holds(heap, x, v) ==> start <= x
    {
    }
  }

  /** `pop` stops early only where a byte is missing. */
  lemma ReadingEnds(heap: seq<RangeBuf>, start: nat, data: seq<RangeBuf>, out: seq<byte>, len: nat, finOff: Option<nat>)
    requires Reading(heap, start, data, out) && ValidChunks(data, start + |out|, len, finOff)
    requires data == [] || data[Lowest(data)].off != start + |out|
    ensures !Has(heap, start + |out|)
  {
    NotReadyMissing(data, start + |out|);
    HasIsHolds(data, start + |out|);
    HasIsHolds(heap, start + |out|);
  }

  /** One turn of the loop in `pop`: takes the lowest chunk off the heap, and puts back
      what does not fit. */
  method TakeTop(data: seq<RangeBuf>, room: nat) returns (bytes: seq<byte>, rest: seq<RangeBuf>)
    requires data != []
    ensures var n := Min(|data[Lowest(data)].data|, room);
            bytes == data[Lowest(data)].data[..n] && rest == Consume(data, n)
  {
    var i := Lowest(data);
    var b := data[i];
    rest := Without(data, i);
    if |b.data| > room {
      rest := rest + [b.Tail(room)];
      b := b.Head(room);
    }
    bytes := b.data;
  }
}
