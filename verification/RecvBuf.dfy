/** The receive side of a stream as the object that the connection updates in place
    (src/stream.rs, `RecvBuf`). Its methods are proved against `RecvSpec`. */
module RecvBuffer {
  import opened Prelude
  import opened Limits
  import opened Chunks
  import opened ChunkHeap
  import opened RecvSpec

  /** The order in which iterating over the heap meets its chunks: any order. */
  method HeapOrder(data: seq<RangeBuf>) returns (order: seq<RangeBuf>)
    ensures multiset(order) == multiset(data)
  {
    order := data;
  }

  /** Whatever completes the loop from `cur` and `buf` completes it from the start. */
  ghost predicate Leads(pre: Store, off: nat, first: RangeBuf, done: seq<seq<RangeBuf>>, cur: Store, buf: RangeBuf)
    requires off <= first.MaxOff() && off <= buf.MaxOff()
  {
    forall more, post :: Filled(cur, off, buf, more, post) ==> Filled(pre, off, first, done + more, post)
  }

  lemma LeadsStep(pre: Store, off: nat, first: RangeBuf, done: seq<seq<RangeBuf>>, cur: Store, buf: RangeBuf,
                  order: seq<RangeBuf>, head: RangeBuf, rest: RangeBuf)
    requires off <= first.MaxOff() && off <= buf.MaxOff() && off <= rest.MaxOff()
    requires Leads(pre, off, first, done, cur, buf)
    requires multiset(order) == multiset(cur.data)
    requires Pass(order, Fresh(buf, off), None) == Fits(head, Some(rest))
    ensures Leads(pre, off, first, done + [order], Added(cur, head), rest)
  {
    forall more, post | Filled(Added(cur, head), off, rest, more, post)
      ensures Filled(pre, off, first, done + [order] + more, post)
    {
      assert ([order] + more)[1..] == more;
      assert Filled(cur, off, buf, [order] + more, post);
      assert done + [order] + more == done + ([order] + more);
    }
  }

  /** The inner loop of an insertion: compares the piece with every chunk. */
  method Scan(order: seq<RangeBuf>, piece: RangeBuf) returns (r: PassResult)
    ensures r == Pass(order, piece, None)
  {
    var cur, tmp := piece, None;
    var i := 0;
    while i < |order|
      invariant 0 <= i <= |order|
      invariant Pass(order[i..], cur, tmp) == Pass(order, piece, None)
    {
      var b := order[i];
      assert order[i..][1..] == order[i + 1..];
      if b.off <= cur.off && cur.MaxOff() <= b.MaxOff() {
        return Contained;
      }
      if b.off <= cur.off && cur.off < b.MaxOff() {
        cur := cur.Tail(b.MaxOff() - cur.off);
      }
      if cur.off < b.off && cur.MaxOff() > b.off {
        tmp := Some(cur.Tail(b.off - cur.off));
        cur := cur.Head(b.off - cur.off);
      }
      i := i + 1;
    }
    r := Fits(cur, tmp);
  }

  /** The loop of an insertion: stores the piece that a scan of the heap leaves and goes
      on with the piece left over. The result says whether anything was stored. */
  method Fill(heap: seq<RangeBuf>, length: nat, off: nat, buf: RangeBuf, ghost finOff: Option<nat>)
    returns (stored: bool, data: seq<RangeBuf>, len: nat, ghost orders: seq<seq<RangeBuf>>)
    requires off <= buf.MaxOff() && (|buf.data| == 0 || off < buf.MaxOff())
    requires ValidChunks(heap, off, length, finOff)
    requires finOff.Some? ==> buf.MaxOff() <= finOff.value
    requires |buf.data| == 0 ==> finOff == Some(buf.off)
    ensures Filled(Store(heap, length), off, buf, orders, Store(data, len))
    ensures stored <==> data != heap
    ensures !stored ==> len == length
  {
    hide ValidChunks, Pass;
    data, len, orders, stored := heap, length, [], false;
    ghost var pre := Store(heap, length);
    var tmp := Some(buf);
    assert forall more: seq<seq<RangeBuf>> :: orders + more == more;
    while tmp.Some?
      invariant tmp.Some? ==>
                  && off <= tmp.value.MaxOff() && (|tmp.value.data| == 0 || off < tmp.value.MaxOff())
                  && (finOff.Some? ==> tmp.value.MaxOff() <= finOff.value)
                  && (|tmp.value.data| == 0 ==> finOff == Some(tmp.value.off))
                  && ValidChunks(data, off, len, finOff)
                  && Leads(pre, off, buf, orders, Store(data, len), tmp.value)
      invariant tmp.None? ==> Filled(pre, off, buf, orders, Store(data, len))
      invariant |heap| <= |data| && (stored <==> |data| > |heap|) && (!stored ==> data == heap && len == length)
      decreases if tmp.Some? then 1 + |tmp.value.data| else 0
    {
      var cur := tmp.value;
      if off > cur.off {
        cur := cur.Tail(off - cur.off);
      }
      var order := HeapOrder(data);
      ghost var before := Store(data, len);
      PassOnHeap(before, off, tmp.value, order, finOff);
      var scan := Scan(order, cur);
      if scan.Contained? {
        assert Filled(before, off, tmp.value, [order], before);
        orders := orders + [order];
        return;
      }
      ghost var whole := tmp.value;
      cur, tmp := scan.head, scan.rest;
      len := Max(len, cur.MaxOff());
      data := data + [cur];
      stored := true;
      if tmp.Some? {
        LeadsStep(pre, off, buf, orders, before, whole, order, cur, tmp.value);
      } else {
        assert Filled(before, off, whole, [order], Store(data, len));
      }
      orders := orders + [order];
    }
  }

  /** The loop of `pop`. */
  method Read(heap: seq<RangeBuf>, start: nat, cap: nat, ghost len: nat, ghost finOff: Option<nat>)
    returns (out: seq<byte>, data: seq<RangeBuf>, off: nat)
    requires ValidChunks(heap, start, len, finOff) && start <= len
    ensures off == start + |out| <= len && |out| <= cap
    ensures Reading(heap, start, data, out) && ValidChunks(data, off, len, finOff)
    ensures |out| == cap || !Has(heap, off)
    ensures |out| == cap || data == [] || data[Lowest(data)].off != off
    ensures heap == [] ==> data == []
  {
    hide Reading, ValidChunks, Consume;
    out, data, off := [], heap, start;
    ReadingStarts(heap, start, len, finOff);
    while |out| < cap && data != [] && data[Lowest(data)].off == off
      invariant |out| <= cap && off == start + |out| <= len
      invariant Reading(heap, start, data, out)
      invariant ValidChunks(data, off, len, finOff)
      invariant heap == [] ==> data == []
      decreases cap - |out| + |data|
    {
      ConsumeShrinks(data, Min(|data[Lowest(data)].data|, cap - |out|));
      ReadingStep(heap, start, data, out, Min(|data[Lowest(data)].data|, cap - |out|), len, finOff);
      var bytes, rest := TakeTop(data, cap - |out|);
      out, data, off := out + bytes, rest, off + |bytes|;
    }
    if |out| < cap {
      ReadingEnds(heap, start, data, out, len, finOff);
    }
  }

  class RecvBuf {
    var data: seq<RangeBuf>
    var off: nat
    var len: nat
    var maxData: nat
    var maxDataNext: nat
    var finOff: Option<nat>
    var drain: bool
    var bct: int
    var goodRecv: nat
    var blockDeadline: nat
    var startTime: nat

    function State(): Recv
      reads this
    {
      Recv(data, off, len, maxData, maxDataNext, finOff, drain)
    }

    ghost predicate Valid()
      reads this
    {
      State().Valid()
    }

    constructor (window: nat)
      requires window <= U64_MAX
      ensures Valid() && State() == Initial(window)
    {
      data, off, len, maxData, maxDataNext := [], 0, 0, window, window;
      finOff, drain := None, false;
      bct, goodRecv, blockDeadline, startTime := 0, 0, 0, 0;
    }

    /** The first half of an insertion: the checks, and the final offset. The result is
        false when nothing has to be buffered. */
    method Accept(buf: RangeBuf) returns (r: Result<bool>)
      requires Valid()
      modifies `finOff
      ensures match PushError(old(State()), buf)
              case Some(e) => r == Err(e) && State() == old(State())
              case None =>
                && r == Ok(!Ignored(old(State()), buf))
                && State() == old(State()).(finOff := FinAfter(old(State()), buf))
    {
      if buf.MaxOff() > maxData {
        return Err(FlowControl);
      }
      if finOff.Some? {
        if buf.MaxOff() > finOff.value {
          return Err(FinalSize);
        }
        if buf.fin && finOff.value != buf.MaxOff() {
          return Err(FinalSize);
        }
      }
      if buf.fin && buf.MaxOff() < len {
        return Err(FinalSize);
      }
      if finOff.Some? && |buf.data| == 0 {
        return Ok(false);
      }
      if buf.fin {
        finOff := Some(buf.MaxOff());
      }
      if !buf.fin && |buf.data| == 0 {
        return Ok(false);
      }
      if off >= buf.MaxOff() {
        if |buf.data| > 0 {
          return Ok(false);
        }
      }
      r := Ok(!drain);
    }

    /** The body that `push` and `push_evaluation` share; `stored` says whether the loop
        added a chunk. */
    method Insert(buf: RangeBuf) returns (r: Result<()>, stored: bool, ghost orders: seq<seq<RangeBuf>>)
      requires Valid()
      modifies `data, `len, `finOff
      ensures Valid() && Pushed(old(State()), buf, orders, r, State())
      ensures stored <==> data != old(data)
    {
      hide ValidChunks, Filled;
      orders, stored := [], false;
      ghost var pre := State();
      var accepted := Accept(buf);
      if accepted.Err? {
        return Err(accepted.error), stored, orders;
      }
      if accepted.value {
        ReadyToFill(pre, buf);
        stored, data, len, orders := Fill(data, len, off, buf, finOff);
        FilledIsPushed(pre, buf, orders, data, len);
      } else {
        IgnoredIsPushed(pre, buf);
      }
      r := Ok(());
    }

    /** Books the completion time: bytes count as good up to `limit`. */
    method Book(limit: int, now: int)
      modifies `bct, `goodRecv
      ensures bct == now - startTime
      ensures goodRecv == if bct <= limit then len else old(goodRecv)
    {
      bct := now - startTime;
      if bct <= limit {
        goodRecv := len;
      }
    }

    method Push(buf: RangeBuf, now: int) returns (r: Result<()>, ghost orders: seq<seq<RangeBuf>>)
      requires Valid()
      modifies `data, `len, `finOff, `bct, `goodRecv
      ensures Valid() && Pushed(old(State()), buf, orders, r, State())
      ensures bct == if data != old(data) then now - startTime else old(bct)
      ensures goodRecv == if data != old(data) && now - startTime <= blockDeadline then len else old(goodRecv)
    {
      var stored;
      r, stored, orders := Insert(buf);
      if stored {
        Book(blockDeadline, now);
      }
    }

    /** The variant the connection calls: it counts bytes as good against a fixed
        completion time of 200 instead of the deadline of the block. */
    method PushEvaluation(buf: RangeBuf, now: int) returns (r: Result<()>, ghost orders: seq<seq<RangeBuf>>)
      requires Valid()
      modifies `data, `len, `finOff, `bct, `goodRecv
      ensures Valid() && Pushed(old(State()), buf, orders, r, State())
      ensures bct == if data != old(data) then now - startTime else old(bct)
      ensures goodRecv == if data != old(data) && now - startTime <= 200 then len else old(goodRecv)
    {
      var stored;
      r, stored, orders := Insert(buf);
      if stored {
        Book(200, now);
      }
    }

    /** `pop` into a buffer with room for `cap` bytes; the bytes that the source copies
        into the caller's slice are returned, with the end-of-stream flag. */
    method Pop(cap: nat) returns (r: Result<(seq<byte>, bool)>)
      requires Valid()
      modifies this
      ensures Valid()
      ensures r.Err? <==> !old(State()).Ready()
      ensures r.Err? ==> r.error == Done && State() == old(State())
      ensures r.Ok? ==> Popped(old(State()), cap, r.value.0, State()) && r.value.1 == State().IsFin()
      ensures unchanged(`bct, `goodRecv, `blockDeadline, `startTime)
    {
      hide ValidChunks;
      if !State().Ready() {
        return Err(Done);
      }
      var out;
      out, data, off := Read(data, off, cap, len, finOff);
      maxDataNext := SaturatingAdd(maxDataNext, |out|);
      r := Ok((out, State().IsFin()));
    }

    method Reset(finalSize: nat) returns (r: Result<nat>)
      requires Valid()
      modifies this
      ensures Valid()
      ensures match ResetTo(old(State()), finalSize)
              case Err(e) => r == Err(e) && State() == old(State())
              case Ok((credit, post)) => r == Ok(credit) && State() == post
    {
      if finOff.Some? {
        if finOff.value != finalSize {
          return Err(FinalSize);
        }
      }
      if finalSize < len {
        return Err(FinalSize);
      }
      finOff := Some(finalSize);
      r := Ok(finalSize - len);
    }

    method UpdateMaxData() returns (limit: nat)
      requires Valid()
      modifies this
      ensures Valid() && State() == Committed(old(State())) && limit == maxData
    {
      maxData := maxDataNext;
      limit := maxData;
    }

    method Shutdown() returns (r: Result<()>)
      requires Valid()
      modifies this
      ensures Valid()
      ensures match Shut(old(State()))
              case Err(e) => r == Err(e) && State() == old(State())
              case Ok(post) => r == Ok(()) && State() == post
    {
      if drain {
        return Err(Done);
      }
      drain := true;
      data := [];
      r := Ok(());
    }

    /** Whether a larger limit is to be announced: it is larger indeed, it is not announced once
        the final size is known, and it is due once the limit is used up unless it is below two. */
    method AlmostFull() returns (b: bool)
      requires Valid()
      ensures b <==> RecvSpec.AlmostFull(State())
      ensures b ==> maxData < maxDataNext && 2 * (maxData - len) < maxDataNext
      ensures finOff.None? && len == maxData < maxDataNext && 2 <= maxDataNext ==> b
    {
      var room: nat := maxData - len;
      b := finOff.None? && maxDataNext != maxData && maxDataNext / 2 > room;
    }
  }
}
