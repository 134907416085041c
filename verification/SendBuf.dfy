/** The send side of a stream as the object that the connection updates in place
    (src/stream.rs, `SendBuf`). Its methods are proved against `SendSpec`. */
module SendBuffer {
  import opened Prelude
  import opened Chunks
  import opened ChunkHeap
  import opened RangeSets
  import opened SendSpec

  lemma TopHasBytes(data: seq<RangeBuf>, off: nat, end: nat)
    requires ValidChunks(data, off, end, None) && data != []
    ensures |data[Lowest(data)].data| > 0
  {
    assert data[Lowest(data)] in data;
  }

  /** The loop of `pop`: takes chunks off the heap while they continue the run. */
  method TakeRun(heap: seq<RangeBuf>, start: nat, maxData: nat, max: nat, ghost end: nat)
    returns (bytes: seq<byte>, data: seq<RangeBuf>)
    requires ValidChunks(heap, start, end, None) && start <= end
    requires heap != [] ==> heap[Lowest(heap)].off == start
    ensures |bytes| <= max && start + |bytes| <= end
    ensures Reading(heap, start, data, bytes) && ValidChunks(data, start + |bytes|, end, None)
    ensures bytes == [] ==> data == heap && (max == 0 || heap == [] || start >= maxData)
    ensures bytes != [] ==> start + |bytes| <= maxData
    ensures |bytes| == max || start + |bytes| >= maxData || !Has(heap, start + |bytes|)
  {
    hide Reading, Consume, ValidChunks;
    bytes, data := [], heap;
    ReadingStarts(heap, start, end, None);
    while |bytes| < max && data != [] && data[Lowest(data)].off == start + |bytes| < maxData
      invariant |bytes| <= max && start + |bytes| <= end
      invariant Reading(heap, start, data, bytes)
      invariant ValidChunks(data, start + |bytes|, end, None)
      invariant bytes == [] ==> data == heap
      invariant bytes != [] ==> start + |bytes| <= maxData
      decreases max - |bytes| + |data|
    {
      var b := data[Lowest(data)];
      var room := Min(max - |bytes|, maxData - b.off);
      TopHasBytes(data, start + |bytes|, end);
      ConsumeShrinks(data, Min(|b.data|, room));
      ReadingStep(heap, start, data, bytes, Min(|b.data|, room), end, None);
      var taken, rest := TakeTop(data, room);
      bytes, data := bytes + taken, rest;
    }
    if |bytes| < max && start + |bytes| < maxData {
      ReadingEnds(heap, start, data, bytes, end, None);
    }
  }

  /** `pop` on values: the frame data, the queue that is left, and its size. */
  method Take(s: Send, max: nat) returns (out: RangeBuf, data: seq<RangeBuf>, len: nat)
    requires s.Valid()
    ensures Taken(s, max, out, s.(data := data, len := len))
  {
    var start := s.LowOff();
    LowChunks(s);
    var bytes, rest := TakeRun(s.data, start, s.maxData, max, s.off);
    BytesReadFit(s, rest, bytes);
    data, len := rest, s.len - |bytes|;
    var low := if bytes == [] then s.off else start;
    out := RangeBuf(bytes, low, s.finOff == Some(low + |bytes|));
    ReadIsTaken(s, max, data, bytes, out, s.(data := data, len := len));
  }

  lemma NoPieces(off: nat, fin: bool)
    ensures Pieces([], off, fin) == []
  {
  }

  /** The loop of `push_slice` over the pieces of a write, before the final offset is
      known. */
  method QueueChunks(s: Send, bytes: seq<byte>, fin: bool) returns (post: Send)
    requires s.Valid() && !s.shutdown && s.finOff.None? && bytes != []
    ensures post == s.(data := s.data + Pieces(bytes, s.off, fin), off := s.off + |bytes|, len := s.len + |bytes|,
                       finOff := if fin then Some(s.off + |bytes|) else None)
  {
    hide Pieces;
    post := s;
    var done := 0;
    AckOffBelow(s);
    while done < |bytes|
      invariant done <= |bytes|
      invariant post == s.(data := post.data, off := s.off + done, len := s.len + done, finOff := post.finOff)
      invariant post.data + Pieces(bytes[done..], post.off, fin) == s.data + Pieces(bytes, s.off, fin)
      invariant post.finOff == if done == |bytes| && fin then Some(post.off) else None
    {
      var chunk := bytes[done..Min(|bytes|, done + MAX_WRITE_SIZE)];
      PiecesStep(bytes, done, post.off, fin);
      var q := Queued(post, RangeBuf(chunk, post.off, done + |chunk| == |bytes| && fin));
      post := q.value.(off := post.off + |chunk|);
      done := done + |chunk|;
    }
    assert bytes[done..] == [];
    NoPieces(post.off, fin);
  }

  class SendBuf {
    var data: seq<RangeBuf>
    var off: nat
    var len: nat
    var maxData: nat
    var finOff: Option<nat>
    var shutdown: bool
    const acked: RangeSet

    function State(): Send
      reads this, acked
    {
      Send(data, off, len, maxData, finOff, shutdown, acked.inner)
    }

    ghost predicate Valid()
      reads this, acked
    {
      State().Valid()
    }

    constructor (window: nat)
      ensures Valid() && fresh(acked) && State() == Fresh(window)
    {
      data, off, len, maxData, finOff, shutdown := [], 0, 0, window, None, false;
      acked := new RangeSet();
    }

    /** Queues a chunk that was lost in flight, or the next piece of a write. */
    method Push(buf: RangeBuf) returns (r: Result<()>)
      requires acked.Valid()
      modifies this
      ensures match Queued(old(State()), buf)
              case Err(e) => r == Err(e) && State() == old(State())
              case Ok(post) => r == Ok(()) && State() == post
    {
      if finOff.Some? {
        if buf.MaxOff() > finOff.value {
          return Err(FinalSize);
        }
        if buf.MaxOff() == finOff.value && !buf.fin {
          return Err(FinalSize);
        }
      }
      if shutdown {
        return Ok(());
      }
      if buf.fin {
        finOff := Some(buf.MaxOff());
      }
      if AckOff(acked.inner) >= buf.MaxOff() {
        return Ok(());
      }
      len := len + |buf.data|;
      if |buf.data| == 0 {
        return Ok(());
      }
      data := data + [buf];
      r := Ok(());
    }

    method PushSlice(input: seq<byte>, flag: bool) returns (r: Result<nat>)
      requires Valid()
      modifies this
      ensures Valid()
      ensures match Written(old(State()), input, flag)
              case Err(e) => r == Err(e) && State() == old(State())
              case Ok((n, post)) => r == Ok(n) && State() == post
    {
      hide Pieces, ValidChunks, Bytes, Holds;
      ghost var s := State();
      if Written(s, input, flag).Ok? {
        WriteAppends(s, input, flag);
      }
      if shutdown {
        return Ok(|input|);
      }
      if input == [] {
        var q := Push(RangeBuf([], off, flag));
        return if q.Ok? then Ok(0) else Err(q.error);
      }
      var bytes, fin := input, flag;
      if |bytes| > maxData - off {
        bytes, fin := bytes[..maxData - off], false;
      }
      if bytes == [] {
        return Ok(0);
      }
      if finOff.Some? {
        var first := bytes[..Min(|bytes|, MAX_WRITE_SIZE)];
        var q := Push(RangeBuf(first, off, fin && |first| == |bytes|));
        return Err(q.error);
      }
      var post := QueueChunks(State(), bytes, fin);
      data, off, len, finOff := post.data, post.off, post.len, post.finOff;
      assert input[..|input|] == input;
      assert State() == Written(s, input, flag).value.1;
      r := Ok(|bytes|);
    }

    /** `pop`: takes the data for one frame. */
    method Pop(max: nat) returns (out: RangeBuf)
      requires Valid()
      modifies `data, `len
      ensures Valid() && Taken(old(State()), max, out, State())
    {
      out, data, len := Take(State(), max);
    }

    method UpdateMaxData(max: nat)
      requires Valid()
      modifies this
      ensures Valid() && State() == old(State()).(maxData := Max(old(maxData), max))
    {
      maxData := Max(maxData, max);
    }

    method Ack(ackOff: nat, ackLen: nat)
      requires Valid()
      modifies acked
      ensures State() == old(State()).(acked := Inserted(old(acked.inner), Range(ackOff, ackOff + ackLen)))
      ensures acked.Valid() && (ackOff + ackLen <= off ==> Valid())
    {
      if ackOff + ackLen <= off {
        InsertedBounded(acked.inner, Range(ackOff, ackOff + ackLen), off);
      }
      acked.Insert(Range(ackOff, ackOff + ackLen));
    }

    method Shutdown() returns (r: Result<()>)
      requires Valid()
      modifies this
      ensures Valid()
      ensures if old(shutdown) then r == Err(Done) && State() == old(State())
              else r == Ok(()) && State() == old(State()).(shutdown := true, data := [])
    {
      if shutdown {
        return Err(Done);
      }
      shutdown := true;
      data := [];
      r := Ok(());
    }

    method IsComplete() returns (b: bool)
      ensures b <==> State().IsComplete()
    {
      if finOff.Some? {
        b := acked.EqualsRange(Range(0, finOff.value));
      } else {
        b := false;
      }
    }
  }

  lemma AckOffBelow(s: Send)
    requires s.Valid()
    ensures AckOff(s.acked) <= s.off
  {
  }

  lemma PiecesStep(bytes: seq<byte>, done: nat, off: nat, fin: bool)
    requires done < |bytes|
    ensures var n := Min(|bytes|, done + MAX_WRITE_SIZE);
            Pieces(bytes[done..], off, fin)
            == [RangeBuf(bytes[done..n], off, n == |bytes| && fin)] + Pieces(bytes[n..], off + (n - done), fin)
  {
    var n := Min(|bytes|, done + MAX_WRITE_SIZE);
    if n < |bytes| {
      assert bytes[done..][..MAX_WRITE_SIZE] == bytes[done..n];
      assert bytes[done..][MAX_WRITE_SIZE..] == bytes[n..];
    } else {
      assert bytes[done..n] == bytes[done..];
    }
  }
}
