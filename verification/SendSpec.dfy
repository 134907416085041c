/** What the send side of a stream does, on values: splitting, re-queueing and
    acknowledging chunks (src/stream.rs, `SendBuf`). */
module SendSpec {
  import opened Prelude
  import opened Chunks
  import opened ChunkHeap
  import opened RangeSets

  const MAX_WRITE_SIZE: nat := 1000

  datatype Send = Send(data: seq<RangeBuf>, off: nat, len: nat, maxData: nat, finOff: Option<nat>,
                       shutdown: bool, acked: seq<Range>)
  {
    ghost predicate Valid() {
      && ValidChunks(data, 0, off, None)
      && off <= maxData
      && (if shutdown then data == [] else len == Bytes(data))
      && (finOff.Some? ==> finOff.value == off)
      && Canonical(acked) && (forall r :: r in acked ==> r.end <= off)
    }

    /** The lowest queued offset, or the write offset when nothing is queued. */
    function LowOff(): nat {
      if data == [] then off else data[Lowest(data)].off
    }

    predicate IsComplete() {
      finOff.Some? && acked == [Range(0, finOff.value)]
    }

    /** The size announced when the block is canceled. */
    function BlockSize(): nat {
      if finOff.Some? then finOff.value else off
    }
  }

  function Fresh(window: nat): Send {
    Send([], 0, 0, window, None, false, [])
  }

  /** The highest offset up to which everything is acknowledged. */
  function AckOff(acked: seq<Range>): nat {
    if acked != [] && acked[0].start == 0 then acked[0].end else 0
  }

  lemma AckOffIsContiguous(acked: seq<Range>)
    requires Canonical(acked)
    ensures forall x :: 0 <= x < AckOff(acked) ==> Member(acked, x)
    ensures !Member(acked, AckOff(acked))
  {
    if acked != [] && acked[0].start == 0 {
      forall x | 0 <= x < AckOff(acked)
        ensures Member(acked, x)
      {
        assert acked[0].Contains(x);
      }
    }
  }

  // ---------- queueing one chunk ----------

  /** `push`: queues a chunk, be it new or lost in flight. */
  function Queued(s: Send, buf: RangeBuf): Result<Send> {
    if s.finOff.Some? && buf.MaxOff() > s.finOff.value then Err(FinalSize)
    else if s.finOff.Some? && buf.MaxOff() == s.finOff.value && !buf.fin then Err(FinalSize)
    else if s.shutdown then Ok(s)
    else
      var t := if buf.fin then s.(finOff := Some(buf.MaxOff())) else s;
      if AckOff(s.acked) >= buf.MaxOff() then Ok(t)
      else if buf.data == [] then Ok(t)
      else Ok(t.(len := t.len + |buf.data|, data := t.data + [buf]))
  }

  // ---------- writing ----------

  /** The pieces of at most `MAX_WRITE_SIZE` bytes that a write is cut into; the last
      one carries the flag. */
  function Pieces(data: seq<byte>, off: nat, fin: bool): seq<RangeBuf>
    decreases |data|
  {
    if |data| <= MAX_WRITE_SIZE then (if data == [] then [] else [RangeBuf(data, off, fin)])
    else
      [RangeBuf(data[..MAX_WRITE_SIZE], off, false)]
      + Pieces(data[MAX_WRITE_SIZE..], off + MAX_WRITE_SIZE, fin)
  }

  /** `push_slice`: how many bytes were taken, and the buffer after the call. */
  function Written(s: Send, data: seq<byte>, fin: bool): (r: Result<(nat, Send)>)
    requires s.off <= s.maxData
    ensures r.Ok? ==> r.value.0 <= |data|
  {
    if s.shutdown then Ok((|data|, s))
    else if data == [] then
      var t :- Queued(s, RangeBuf([], s.off, fin));
      Ok((0, t))
    else
      var n := Min(|data|, s.maxData - s.off);
      var last := fin && n == |data|;
      if n == 0 then Ok((0, s))
      else if s.finOff.Some? then Err(FinalSize)
      else
        Ok((n, s.(data := s.data + Pieces(data[..n], s.off, last), off := s.off + n, len := s.len + n,
                  finOff := if last then Some(s.off + n) else None)))
  }

  /** Cutting a write into pieces loses nothing and overlaps nothing. */
  lemma {:induction false} PiecesCover(data: seq<byte>, off: nat, fin: bool)
    ensures ValidChunks(Pieces(data, off, fin), off, off + |data|, None)
    ensures Bytes(Pieces(data, off, fin)) == |data|
    decreases |data|
  {
    if |data| > MAX_WRITE_SIZE {
      PiecesCover(data[MAX_WRITE_SIZE..], off + MAX_WRITE_SIZE, fin);
    }
  }

  lemma {:induction false} PiecesHold(data: seq<byte>, off: nat, fin: bool, x: int, v: byte)
    ensures Holds(Pieces(data, off, fin), x, v) <==> off <= x < off + |data| && data[x - off] == v
    decreases |data|
  {
    var p := Pieces(data, off, fin);
    if |data| > MAX_WRITE_SIZE {
      var first, rest := RangeBuf(data[..MAX_WRITE_SIZE], off, false), Pieces(data[MAX_WRITE_SIZE..], off + MAX_WRITE_SIZE, fin);
      PiecesHold(data[MAX_WRITE_SIZE..], off + MAX_WRITE_SIZE, fin, x, v);
      HoldsParts(p, first, rest, x, v);
    } else if data != [] {
      HoldsParts(p, p[0], [], x, v);
    }
  }

  lemma ConcatHolds(a: seq<RangeBuf>, b: seq<RangeBuf>, x: int, v: byte)
    ensures Holds(a + b, x, v) <==> Holds(a, x, v) || Holds(b, x, v)
  {
    assert forall c :: c in a + b <==> c in a || c in b;
  }

  /** Chunks below an offset and chunks from that offset on do not meet. */
  lemma ConcatValid(a: seq<RangeBuf>, b: seq<RangeBuf>, mid: nat, end: nat)
    requires ValidChunks(a, 0, mid, None) && ValidChunks(b, mid, end, None) && mid <= end
    ensures ValidChunks(a + b, 0, end, None) && Bytes(a + b) == Bytes(a) + Bytes(b)
  {
    BytesConcat(a, b);
    forall i, j | 0 <= i < j < |a + b|
      ensures Separate((a + b)[i], (a + b)[j]) && (a + b)[i].off != (a + b)[j].off
    {
      if i < |a| <= j {
        assert a[i] in a && b[j - |a|] in b;
      }
    }
  }

  /** The bytes of a write are queued right after what was written before. */
  lemma AppendPieces(queue: seq<RangeBuf>, off: nat, data: seq<byte>, fin: bool)
    requires ValidChunks(queue, 0, off, None)
    ensures var post := queue + Pieces(data, off, fin);
            && ValidChunks(post, 0, off + |data|, None)
            && Bytes(post) == Bytes(queue) + |data|
            && forall x, v :: Holds(post, x, v) <==>
                 Holds(queue, x, v) || (off <= x < off + |data| && data[x - off] == v)
  {
    var p := Pieces(data, off, fin);
    PiecesCover(data, off, fin);
    ConcatValid(queue, p, off, off + |data|);
    forall x, v
      ensures Holds(queue + p, x, v) <==>
                Holds(queue, x, v) || (off <= x < off + |data| && data[x - off] == v)
    {
      ConcatHolds(queue, p, x, v);
      PiecesHold(data, off, fin, x, v);
    }
  }

  lemma LongerQueue(s: Send, data: seq<byte>, last: bool, post: Send)
    requires s.Valid() && !s.shutdown && s.finOff.None? && s.off + |data| <= s.maxData
    requires post == s.(data := s.data + Pieces(data, s.off, last), off := s.off + |data|, len := s.len + |data|,
                        finOff := if last then Some(s.off + |data|) else None)
    ensures post.Valid()
    ensures forall x, v :: Holds(post.data, x, v) <==>
              Holds(s.data, x, v) || (s.off <= x < s.off + |data| && data[x - s.off] == v)
  {
    hide Pieces;
    AppendPieces(s.data, s.off, data, last);
    hide ValidChunks, Holds;
  }

  /** A write keeps the buffer well formed, and queues exactly the bytes taken. It records the
      final offset exactly when it is to end the stream and all bytes fit; once the final
      offset is known no byte is taken any more. */
  lemma WriteAppends(s: Send, data: seq<byte>, fin: bool)
    requires s.Valid() && Written(s, data, fin).Ok?
    ensures var (n, post) := Written(s, data, fin).value;
            && post.Valid() && n <= |data| && post.maxData == s.maxData && post.acked == s.acked
            && post.shutdown == s.shutdown
            && (s.shutdown ==> post == s)
            && (!s.shutdown ==> post.off == s.off + n && (s.finOff.Some? ==> n == 0 && post.finOff == s.finOff))
    ensures var (n, post) := Written(s, data, fin).value;
            s.finOff.None? && !s.shutdown ==>
              post.finOff == if fin && n == |data| then Some(s.off + n) else None
    ensures var (n, post) := Written(s, data, fin).value;
            !s.shutdown ==> forall x, v :: Holds(post.data, x, v) <==>
                              Holds(s.data, x, v) || (s.off <= x < s.off + n && data[x - s.off] == v)
  {
    var (n, post) := Written(s, data, fin).value;
    if !s.shutdown && n > 0 {
      LongerQueue(s, data[..n], fin && n == |data|, post);
    } else if !s.shutdown {
      assert post.data == s.data;
    }
    hide ValidChunks, Pieces, Holds, Canonical;
  }

  /** How much a write takes: as much as the peer's limit leaves room for, and everything, to be
      dropped, once the stream is shut down. It is refused exactly when the end is fixed already
      and the write has bytes there is room for, or is empty and does not end the stream. */
  lemma WriteTakes(s: Send, data: seq<byte>, fin: bool)
    requires s.Valid()
    ensures s.shutdown ==> Written(s, data, fin) == Ok((|data|, s))
    ensures !s.shutdown && s.finOff.None? ==>
              Written(s, data, fin).Ok? && Written(s, data, fin).value.0 == Min(|data|, s.maxData - s.off)
    ensures !s.shutdown && s.finOff.Some? && Written(s, data, fin).Ok? ==> Written(s, data, fin) == Ok((0, s))
    ensures Written(s, data, fin).Err? <==>
              !s.shutdown && s.finOff.Some? && if data == [] then !fin else s.off < s.maxData
    ensures Written(s, data, fin).Err? ==> Written(s, data, fin).error == FinalSize
  {
    hide Pieces, ValidChunks;
    assert AckOff(s.acked) <= s.off;
  }

  /** The chunks of a write: all of them full but the last one, and only that one ends the
      stream. */
  lemma {:induction false} PiecesShape(data: seq<byte>, off: nat, fin: bool)
    ensures var p := Pieces(data, off, fin);
            && (p == [] <==> data == [])
            && forall i :: 0 <= i < |p| ==>
                 && p[i].off == off + 1000 * i
                 && (if i < |p| - 1 then |p[i].data| == 1000 && !p[i].fin
                     else 0 < |p[i].data| <= 1000 && p[i].MaxOff() == off + |data| && p[i].fin == fin)
    decreases |data|
  {
    if |data| > MAX_WRITE_SIZE {
      var first, rest := data[..MAX_WRITE_SIZE], Pieces(data[MAX_WRITE_SIZE..], off + MAX_WRITE_SIZE, fin);
      PiecesShape(data[MAX_WRITE_SIZE..], off + MAX_WRITE_SIZE, fin);
      var p := Pieces(data, off, fin);
      assert p == [RangeBuf(first, off, false)] + rest;
      assert forall i :: 0 < i < |p| ==> p[i] == rest[i - 1];
    }
  }

  /** A chunk is queued exactly once when it has bytes, the stream goes on, and the acknowledged
      front of the stream does not cover it; it is refused exactly when it would move the final
      offset, or end there without the flag. */
  lemma QueuedOutcome(s: Send, buf: RangeBuf)
    requires s.finOff.Some? ==> s.finOff.value == s.off
    ensures Queued(s, buf).Err? <==>
              s.finOff.Some? && (buf.MaxOff() > s.off || (buf.MaxOff() == s.off && !buf.fin))
    ensures Queued(s, buf).Err? ==> Queued(s, buf).error == FinalSize
    ensures Queued(s, buf).Ok? ==>
              var t := Queued(s, buf).value;
              && t.data == (if s.shutdown || buf.data == [] || AckOff(s.acked) >= buf.MaxOff() then s.data
                            else s.data + [buf])
              && t.len + Bytes(s.data) == s.len + Bytes(t.data)
              && t.finOff == (if buf.fin && !s.shutdown then Some(buf.MaxOff()) else s.finOff)
              && t.off == s.off && t.maxData == s.maxData && t.shutdown == s.shutdown && t.acked == s.acked
  {
    BytesAppend(s.data, buf);
  }

  // ---------- taking data for a frame ----------

  /** `pop` with room for `max` bytes: `out` is the lowest run of queued bytes without a
      gap, as long as room and flow control allow, and leaves the queue. */
  ghost predicate Taken(s: Send, max: nat, out: RangeBuf, post: Send) {
    && post.Valid()
    && post == s.(data := post.data, len := post.len)
    && post.len == s.len - |out.data|
    && |out.data| <= max
    && (if out.data == [] then
          && out.off == s.off && post.data == s.data
          && (max == 0 || s.data == [] || s.LowOff() >= s.maxData)
        else
          && out.off == s.LowOff() && out.MaxOff() <= s.maxData
          && (|out.data| == max || out.MaxOff() == s.maxData || !Has(s.data, out.MaxOff())))
    && (forall x, v :: Holds(s.data, x, v) <==> Holds(post.data, x, v) || Stores(out, x, v))
    && (forall x :: out.Covers(x) ==> !Has(post.data, x))
    && (out.fin <==> s.finOff == Some(out.MaxOff()))
  }

  /** The outcome of the `pop` loop, put in terms of the buffer. */
  lemma ReadIsTaken(s: Send, max: nat, data: seq<RangeBuf>, bytes: seq<byte>, out: RangeBuf, post: Send)
    requires s.Valid() && |bytes| <= max
    requires Reading(s.data, s.LowOff(), data, bytes)
    requires ValidChunks(data, s.LowOff() + |bytes|, s.off, None) && s.LowOff() + |bytes| <= s.off
    requires bytes == [] ==> data == s.data && (max == 0 || data == [] || s.LowOff() >= s.maxData)
    requires bytes != [] ==> s.LowOff() + |bytes| <= s.maxData
    requires |bytes| == max || s.LowOff() + |bytes| >= s.maxData || !Has(s.data, s.LowOff() + |bytes|)
    requires s.len >= |bytes| && post == s.(data := data, len := s.len - |bytes|)
    requires out.data == bytes && out.off == (if bytes == [] then s.off else s.LowOff())
    requires out.fin <==> s.finOff == Some(out.MaxOff())
    ensures Taken(s, max, out, post)
  {
    assert post.Valid();
    forall x, v
      ensures Holds(s.data, x, v) <==> Holds(post.data, x, v) || Stores(out, x, v)
    {
      ReadHolds(s, data, bytes, out, x, v);
    }
  }

  lemma ReadHolds(s: Send, data: seq<RangeBuf>, bytes: seq<byte>, out: RangeBuf, x: int, v: byte)
    requires s.Valid() && Reading(s.data, s.LowOff(), data, bytes)
    requires out.data == bytes && (bytes != [] ==> out.off == s.LowOff())
    ensures Holds(s.data, x, v) <==> Holds(data, x, v) || Stores(out, x, v)
  {
    if out.Covers(x) {
      assert Holds(s.data, s.LowOff() + (x - out.off), bytes[x - out.off]);
      if Holds(s.data, x, v) {
        HoldsOnce(s.data, x, v, out.At(x));
      }
    } else if Holds(s.data, x, v) {
      HoldsFrom(s, x, v);
    }
  }

  lemma BytesReadFit(s: Send, data: seq<RangeBuf>, bytes: seq<byte>)
    requires s.Valid() && Reading(s.data, s.LowOff(), data, bytes)
    ensures |bytes| <= s.len
  {
    if s.shutdown {
      assert s.data == [] && Bytes(s.data) == 0;
    }
  }

  lemma LowChunks(s: Send)
    requires s.Valid()
    ensures ValidChunks(s.data, s.LowOff(), s.off, None) && s.LowOff() <= s.off
  {
  }

  lemma HoldsFrom(s: Send, x: int, v: byte)
    requires s.Valid() && Holds(s.data, x, v)
    ensures s.LowOff() <= x
  {
  }

  /** Chunks that are apart store at most one byte per offset. */
  lemma HoldsOnce(bag: seq<RangeBuf>, x: int, v: byte, w: byte)
    requires Apart(bag) && Holds(bag, x, v) && Holds(bag, x, w)
    ensures v == w
  {
    var b :| b in bag && b.Covers(x) && b.At(x) == v;
    var c :| c in bag && c.Covers(x) && c.At(x) == w;
    var i :| 0 <= i < |bag| && bag[i] == b;
    var j :| 0 <= j < |bag| && bag[j] == c;
    assert i == j || Separate(b, c);
  }
}
