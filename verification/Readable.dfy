/** How much of a stream can be read at once: the buffered bytes that follow the read offset
    without a gap. */
module ReadableBytes {
  import opened Prelude
  import opened Chunks
  import opened ChunkHeap
  import opened RecvSpec

  /** The number of buffered bytes from `off` on without a gap, up to `end`. */
  ghost function Contiguous(data: seq<RangeBuf>, off: nat, end: nat): (n: nat)
    ensures off <= end ==> off + n <= end
    decreases end - off
  {
    if off < end && Has(data, off) then 1 + Contiguous(data, off + 1, end) else 0
  }

  ghost function Readable(s: Recv): nat {
    Contiguous(s.data, s.off, s.len)
  }

  lemma {:induction false} ContiguousRun(data: seq<RangeBuf>, off: nat, end: nat)
    requires off <= end
    ensures var n := Contiguous(data, off, end);
            && (forall x :: off <= x < off + n ==> Has(data, x))
            && (off + n == end || !Has(data, off + n))
    decreases end - off
  {
    if off < end && Has(data, off) {
      ContiguousRun(data, off + 1, end);
    }
  }

  /** Only the bytes in question count. */
  lemma {:induction false} ContiguousSame(a: seq<RangeBuf>, b: seq<RangeBuf>, off: nat, end: nat)
    requires forall x :: off <= x < end ==> (Has(a, x) <==> Has(b, x))
    ensures Contiguous(a, off, end) == Contiguous(b, off, end)
    decreases end - off
  {
    if off < end {
      ContiguousSame(a, b, off + 1, end);
    }
  }

  lemma {:induction false} ContiguousSkip(data: seq<RangeBuf>, off: nat, n: nat, end: nat)
    requires n <= Contiguous(data, off, end)
    ensures Contiguous(data, off + n, end) == Contiguous(data, off, end) - n
    decreases n
  {
    if n > 0 {
      ContiguousSkip(data, off + 1, n - 1, end);
    }
  }

  /** What is read was readable, and the rest of it stays so. */
  lemma ReadingTakes(s: Recv, cap: nat, out: seq<byte>, t: Recv)
    requires s.Valid() && Popped(s, cap, out, t)
    ensures |out| <= Readable(s) && Readable(t) == Readable(s) - |out|
  {
    hide ValidChunks;
    ContiguousRun(s.data, s.off, s.len);
    forall x | s.off <= x < s.off + |out|
      ensures Has(s.data, x)
    {
      assert Holds(s.data, s.off + (x - s.off), out[x - s.off]);
    }
    forall x | t.off <= x
      ensures Has(t.data, x) <==> Has(s.data, x)
    {
      HasIsHolds(s.data, x);
      HasIsHolds(t.data, x);
    }
    ContiguousSame(s.data, t.data, t.off, s.len);
    ContiguousSkip(s.data, s.off, |out|, s.len);
  }

  /** The loop of `pop` ends. */
  lemma {:induction false} ReadOn(heap: seq<RangeBuf>, start: nat, cap: nat, len: nat, finOff: Option<nat>,
                                  data: seq<RangeBuf>, out: seq<byte>)
    returns (rest: seq<RangeBuf>, all: seq<byte>)
    requires Reading(heap, start, data, out) && |out| <= cap
    requires ValidChunks(data, start + |out|, len, finOff) && start + |out| <= len
    ensures Reading(heap, start, rest, all) && |all| <= cap
    ensures ValidChunks(rest, start + |all|, len, finOff) && start + |all| <= len
    ensures |all| == cap || !Has(heap, start + |all|)
    ensures data == [] ==> rest == []
    decreases cap - |out| + |data|
  {
    hide Reading, ValidChunks, Consume;
    if |out| < cap && data != [] && data[Lowest(data)].off == start + |out| {
      var n := Min(|data[Lowest(data)].data|, cap - |out|);
      ReadingStep(heap, start, data, out, n, len, finOff);
      ConsumeShrinks(data, n);
      rest, all := ReadOn(heap, start, cap, len, finOff, Consume(data, n), out + data[Lowest(data)].data[..n]);
    } else {
      rest, all := data, out;
      if |out| < cap {
        ReadingEnds(heap, start, data, out, len, finOff);
      }
    }
  }

  /** All that is readable can be read in one call. */
  lemma ReadItAll(s: Recv) returns (out: seq<byte>, t: Recv)
    requires s.Valid()
    ensures Popped(s, Readable(s), out, t) && |out| == Readable(s)
    ensures t == s.(data := t.data, off := s.off + |out|, maxDataNext := SaturatingAdd(s.maxDataNext, |out|))
  {
    hide ValidChunks;
    var rest;
    ReadingStarts(s.data, s.off, s.len, s.finOff);
    var none: seq<byte> := [];
    rest, out := ReadOn(s.data, s.off, Readable(s), s.len, s.finOff, s.data, none);
    t := s.(data := rest, off := s.off + |out|, maxDataNext := SaturatingAdd(s.maxDataNext, |out|));
    ContiguousRun(s.data, s.off, s.len);
  }

  /** What is readable is buffered. */
  lemma ReadableFits(s: Recv)
    requires s.Valid()
    ensures Readable(s) <= Bytes(s.data) && Readable(s) <= s.len - s.off
  {
    var out, t := ReadItAll(s);
  }

  lemma ReadableIsReady(s: Recv)
    requires s.Valid() && Readable(s) > 0
    ensures s.Ready()
  {
    if !s.Ready() {
      NotReadyMissing(s.data, s.off);
    }
  }

  /** A frame without bytes makes nothing readable. */
  lemma EmptyFrame(s: Recv, b: RangeBuf, orders: seq<seq<RangeBuf>>, r: Result<()>, t: Recv)
    requires s.Valid() && r.Ok? && Pushed(s, b, orders, r, t) && b.data == []
    ensures Readable(t) <= Readable(s)
  {
    hide ValidChunks, Pushed, Extends;
    PushSound(s, b, orders, r, t);
    PushGrows(s, b, orders, r, t);
    forall x
      ensures Has(t.data, x) <==> Has(s.data, x)
    {
      HasIsHolds(s.data, x);
      HasIsHolds(t.data, x);
      NothingAdded(s.data, t.data, s.off, b, x);
    }
    ContiguousSame(s.data, t.data, s.off, t.len);
    BeyondMissing(s);
    ContiguousMore(s.data, s.off, s.len, t.len);
  }

  lemma NothingAdded(pre: seq<RangeBuf>, post: seq<RangeBuf>, off: nat, b: RangeBuf, x: int)
    requires Extends(pre, post, off, b) && b.data == []
    ensures forall v :: !Holds(post[|pre|..], x, v)
  {
  }

  lemma BeyondMissing(s: Recv)
    requires s.Valid()
    ensures forall x :: s.len <= x ==> !Has(s.data, x)
  {
  }

  lemma {:induction false} ContiguousMore(data: seq<RangeBuf>, off: nat, end: nat, more: nat)
    requires off <= end <= more && forall x :: end <= x ==> !Has(data, x)
    ensures Contiguous(data, off, more) == Contiguous(data, off, end)
    decreases end - off
  {
    if off < end {
      ContiguousMore(data, off + 1, end, more);
    }
  }
}
