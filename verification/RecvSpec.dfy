/** What the receive side of a stream does, on values: reassembly of overlapping,
    reordered and duplicated chunks (src/stream.rs, `RecvBuf`). */
module RecvSpec {
  import opened Prelude
  import opened Chunks
  import opened ChunkHeap
  import opened Limits

  // ---------- one pass of the insertion loop over the heap ----------

  /** `Contained`: the incoming piece was already buffered and the call returned.
      `Fits`: the piece to buffer, and the piece left over in `tmp_buf`. */
  datatype PassResult = Contained | Fits(head: RangeBuf, rest: Option<RangeBuf>)

  /** Compares the incoming piece with one buffered chunk: cuts off the front that
      `b` already stores, and splits at the start of `b`. */
  function Visit(b: RangeBuf, head: RangeBuf, rest: Option<RangeBuf>): PassResult {
    if b.off <= head.off && head.MaxOff() <= b.MaxOff() then Contained
    else
      var h := if b.off <= head.off < b.MaxOff() then head.Tail(b.MaxOff() - head.off) else head;
      if h.off < b.off < h.MaxOff() then
        Fits(h.Head(b.off - h.off), Some(h.Tail(b.off - h.off)))
      else
        Fits(h, rest)
  }

  /** The `for b in &self.data` loop, visiting the chunks in the given order. */
  function Pass(order: seq<RangeBuf>, head: RangeBuf, rest: Option<RangeBuf>): (r: PassResult)
    ensures r.Fits? && r.rest != rest ==> r.rest.Some? && head.off < r.rest.value.off <= head.MaxOff()
  {
    if order == [] then Fits(head, rest)
    else match Visit(order[0], head, rest)
      case Contained => Contained
      case Fits(h, t) => Pass(order[1..], h, t)
  }

  /** Drops the part of `buf` below the read offset. */
  function Fresh(buf: RangeBuf, off: nat): (r: RangeBuf)
    requires off <= buf.MaxOff()
    ensures r.off == Max(off, buf.off) && r.MaxOff() == buf.MaxOff()
  {
    if off > buf.off then buf.Tail(off - buf.off) else buf
  }

  datatype Store = Store(data: seq<RangeBuf>, len: nat)

  /** The whole `while let Some(buf) = tmp_buf` loop: `orders[k]` is the order in
      which pass `k` visits the heap, and `post` is what the loop leaves. */
  predicate Filled(pre: Store, off: nat, buf: RangeBuf, orders: seq<seq<RangeBuf>>, post: Store)
    requires off <= buf.MaxOff()
    decreases |orders|
  {
    && orders != []
    && multiset(orders[0]) == multiset(pre.data)
    && match Pass(orders[0], Fresh(buf, off), None)
       case Contained =>
         |orders| == 1 && post == pre
       case Fits(head, None) =>
         |orders| == 1 && post == Added(pre, head)
       case Fits(head, Some(rest)) =>
         Filled(Added(pre, head), off, rest, orders[1..], post)
  }

  function Added(s: Store, head: RangeBuf): Store {
    Store(s.data + [head], Max(s.len, head.MaxOff()))
  }

  // ---------- the receive buffer as a value ----------

  datatype Recv = Recv(data: seq<RangeBuf>, off: nat, len: nat, maxData: nat, maxDataNext: nat,
                       finOff: Option<nat>, drain: bool)
  {
    ghost predicate Valid() {
      && off <= len <= maxData <= maxDataNext <= U64_MAX
      && ValidChunks(data, off, len, finOff)
      && (finOff.Some? ==> len <= finOff.value)
      && (drain ==> data == [])
    }

    /** True when the lowest chunk starts at the read offset. */
    predicate Ready() {
      data != [] && data[Lowest(data)].off == off
    }

    predicate IsFin() {
      finOff == Some(off)
    }
  }

  function Initial(window: nat): Recv {
    Recv([], 0, 0, window, window, None, false)
  }

  /** The checks that come before any change of state. */
  function PushError(s: Recv, buf: RangeBuf): Option<Error> {
    if buf.MaxOff() > s.maxData then Some(FlowControl)
    else if s.finOff.Some? && buf.MaxOff() > s.finOff.value then Some(FinalSize)
    else if s.finOff.Some? && buf.fin && s.finOff.value != buf.MaxOff() then Some(FinalSize)
    else if buf.fin && buf.MaxOff() < s.len then Some(FinalSize)
    else None
  }

  /** True when nothing of `buf` is to be buffered: it is empty and known, already
      read, or the stream is being drained. */
  predicate Ignored(s: Recv, buf: RangeBuf) {
    if |buf.data| == 0 then s.finOff.Some? || !buf.fin || s.drain
    else s.off >= buf.MaxOff() || s.drain
  }

  function FinAfter(s: Recv, buf: RangeBuf): Option<nat> {
    if buf.fin then Some(buf.MaxOff()) else s.finOff
  }

  /** `push`: `r` and `post` are the outcome when the heap is visited in `orders`. */
  ghost predicate Pushed(s: Recv, buf: RangeBuf, orders: seq<seq<RangeBuf>>, r: Result<()>, post: Recv)
    requires s.Valid()
  {
    match PushError(s, buf)
    case Some(e) => r == Err(e) && post == s && orders == []
    case None =>
      && r == Ok(())
      && if Ignored(s, buf) then
           orders == [] && post == s.(finOff := FinAfter(s, buf))
         else
           && post == s.(data := post.data, len := post.len, finOff := FinAfter(s, buf))
           && Filled(Store(s.data, s.len), s.off, buf, orders, Store(post.data, post.len))
  }

  // ---------- soundness, for every visit order ----------

  /** A pass only ever narrows the piece, and the piece that is left touches no
      chunk it was compared with. */
  lemma {:induction false} PassSeparates(order: seq<RangeBuf>, head: RangeBuf, rest: Option<RangeBuf>)
    ensures var r := Pass(order, head, rest);
            r.Fits? ==>
              && head.off <= r.head.off && r.head.MaxOff() <= head.MaxOff()
              && (r.head == head || |r.head.data| > 0)
              && forall b :: b in order ==>
                   Separate(b, r.head) && !(b.off <= r.head.off && r.head.MaxOff() <= b.MaxOff())
  {
    if order != [] && Visit(order[0], head, rest).Fits? {
      var v := Visit(order[0], head, rest);
      PassSeparates(order[1..], v.head, v.rest);
    }
  }

  /** Both pieces carry the bytes of the input, and the one left over is a shorter,
      non-empty piece: this is why the loop terminates. */
  ghost predicate Pieces(head: RangeBuf, rest: Option<RangeBuf>, buf: RangeBuf) {
    && Within(head, buf)
    && (rest.Some? ==>
          && Within(rest.value, buf)
          && 0 < |rest.value.data| < |buf.data|
          && head.MaxOff() <= rest.value.off)
  }

  lemma WithinLength(a: RangeBuf, b: RangeBuf)
    requires Within(a, b)
    ensures |a.data| <= |b.data|
  {
  }

  lemma VisitPieces(b: RangeBuf, head: RangeBuf, rest: Option<RangeBuf>, buf: RangeBuf)
    requires Pieces(head, rest, buf)
    ensures var v := Visit(b, head, rest); v.Fits? ==> Pieces(v.head, v.rest, buf)
  {
    hide Within;
    WithinLength(head, buf);
    if b.off <= head.off < b.MaxOff() < head.MaxOff() {
      SplitWithin(head, b.MaxOff() - head.off, buf);
    } else if head.off < b.off < head.MaxOff() {
      SplitWithin(head, b.off - head.off, buf);
    }
  }

  lemma {:induction false} PassPieces(order: seq<RangeBuf>, head: RangeBuf, rest: Option<RangeBuf>, buf: RangeBuf)
    requires Pieces(head, rest, buf)
    ensures var r := Pass(order, head, rest); r.Fits? ==> Pieces(r.head, r.rest, buf)
  {
    if order != [] && Visit(order[0], head, rest).Fits? {
      var v := Visit(order[0], head, rest);
      VisitPieces(order[0], head, rest, buf);
      PassPieces(order[1..], v.head, v.rest, buf);
    }
  }

  /** The chunks in `post` are those of `pre` followed by new pieces of `buf`. */
  ghost predicate Extends(pre: seq<RangeBuf>, post: seq<RangeBuf>, off: nat, buf: RangeBuf) {
    && pre <= post
    && Bytes(post) <= Bytes(pre) + |buf.data|
    && forall b :: b in post[|pre|..] ==> Within(b, buf) && off <= b.off
  }

  /** Adding the piece that a pass leaves keeps the chunks apart. */
  lemma AddPiece(pre: Store, off: nat, head: RangeBuf, finOff: Option<nat>)
    requires ValidChunks(pre.data, off, pre.len, finOff) && off <= head.off
    requires finOff.Some? ==> head.MaxOff() <= finOff.value
    requires |head.data| == 0 ==> finOff == Some(head.off)
    requires forall b :: b in pre.data ==>
               Separate(b, head) && !(b.off <= head.off && head.MaxOff() <= b.MaxOff())
    ensures ValidChunks(Added(pre, head).data, off, Added(pre, head).len, finOff)
    ensures Bytes(Added(pre, head).data) == Bytes(pre.data) + |head.data|
  {
    AppendApart(pre.data, head);
    BytesAppend(pre.data, head);
  }

  /** One pass of the loop: the piece it stores, and the piece it leaves. */
  lemma PassOnHeap(pre: Store, off: nat, buf: RangeBuf, order: seq<RangeBuf>, finOff: Option<nat>)
    requires off <= buf.MaxOff() && ValidChunks(pre.data, off, pre.len, finOff)
    requires finOff.Some? ==> buf.MaxOff() <= finOff.value
    requires |buf.data| == 0 ==> finOff == Some(buf.off)
    requires |buf.data| == 0 || off < buf.MaxOff()
    requires multiset(order) == multiset(pre.data)
    ensures var r := Pass(order, Fresh(buf, off), None);
            r.Fits? ==>
              && Pieces(r.head, r.rest, buf) && off <= r.head.off
              && ValidChunks(Added(pre, r.head).data, off, Added(pre, r.head).len, finOff)
              && Bytes(Added(pre, r.head).data) == Bytes(pre.data) + |r.head.data|
  {
    var cut := Fresh(buf, off);
    if off > buf.off {
      SplitWithin(buf, off - buf.off, buf);
    }
    PassPieces(order, cut, None, buf);
    PassSeparates(order, cut, None);
    var r := Pass(order, cut, None);
    if r.Fits? {
      forall b | b in pre.data
        ensures Separate(b, r.head) && !(b.off <= r.head.off && r.head.MaxOff() <= b.MaxOff())
      {
        assert b in multiset(order);
      }
      AddPiece(pre, off, r.head, finOff);
    }
  }

  lemma {:induction false} FillSound(pre: Store, off: nat, buf: RangeBuf, orders: seq<seq<RangeBuf>>, post: Store,
                                     finOff: Option<nat>)
    requires off <= buf.MaxOff() && ValidChunks(pre.data, off, pre.len, finOff)
    requires finOff.Some? ==> buf.MaxOff() <= finOff.value
    requires |buf.data| == 0 ==> finOff == Some(buf.off)
    requires |buf.data| == 0 || off < buf.MaxOff()
    requires Filled(pre, off, buf, orders, post)
    ensures ValidChunks(post.data, off, post.len, finOff)
    ensures pre.len <= post.len <= Max(pre.len, buf.MaxOff())
    ensures Extends(pre.data, post.data, off, buf)
    decreases |orders|
  {
    hide Pass, ValidChunks;
    PassOnHeap(pre, off, buf, orders[0], finOff);
    var r := Pass(orders[0], Fresh(buf, off), None);
    if r.Fits? && r.rest.Some? {
      var mid := Added(pre, r.head);
      FillSound(mid, off, r.rest.value, orders[1..], post, finOff);
      ExtendsStep(pre.data, r.head, r.rest.value, post.data, off, buf);
    } else if r.Fits? {
      ExtendsOnce(pre.data, r.head, off, buf);
    } else {
      ExtendsItself(pre.data, off, buf);
    }
    hide Extends;
  }

  lemma ExtendsOnce(pre: seq<RangeBuf>, head: RangeBuf, off: nat, buf: RangeBuf)
    requires Within(head, buf) && off <= head.off
    ensures Extends(pre, pre + [head], off, buf)
  {
    WithinLength(head, buf);
    BytesAppend(pre, head);
    assert (pre + [head])[|pre|..] == [head];
  }

  lemma ExtendsItself(pre: seq<RangeBuf>, off: nat, buf: RangeBuf)
    ensures Extends(pre, pre, off, buf)
  {
    assert pre[|pre|..] == [];
  }

  /** The insertion loop only appends. */
  lemma {:induction false} FillExtends(pre: Store, off: nat, buf: RangeBuf, orders: seq<seq<RangeBuf>>, post: Store)
    requires off <= buf.MaxOff() && Filled(pre, off, buf, orders, post)
    ensures pre.data <= post.data
    decreases |orders|
  {
    var r := Pass(orders[0], Fresh(buf, off), None);
    if r.Fits? && r.rest.Some? {
      FillExtends(Added(pre, r.head), off, r.rest.value, orders[1..], post);
    }
  }

  lemma ExtendsStep(pre: seq<RangeBuf>, head: RangeBuf, rest: RangeBuf, post: seq<RangeBuf>, off: nat, buf: RangeBuf)
    requires Pieces(head, Some(rest), buf) && off <= head.off
    requires Extends(pre + [head], post, off, rest)
    ensures Extends(pre, post, off, buf)
  {
    BytesAppend(pre, head);
    assert post[|pre|..] == [head] + post[|pre| + 1..];
    forall b | b in post[|pre|..]
      ensures Within(b, buf) && off <= b.off
    {
      if b != head {
        assert b in post[|pre| + 1..];
        WithinTrans(b, rest, buf);
      }
    }
  }

  /** Whatever the visit order, a push keeps the buffer well formed and adds only
      bytes of the incoming chunk, at or above the read offset, where nothing was
      buffered before. */
  lemma PushSound(s: Recv, buf: RangeBuf, orders: seq<seq<RangeBuf>>, r: Result<()>, post: Recv)
    requires s.Valid() && Pushed(s, buf, orders, r, post)
    ensures post.Valid()
    ensures r.Ok? <==> PushError(s, buf).None?
    ensures Extends(s.data, post.data, s.off, buf)
    ensures forall x, v :: Holds(post.data, x, v) <==>
              Holds(s.data, x, v) || (!Has(s.data, x) && Holds(post.data[|s.data|..], x, v))
    ensures r.Ok? ==> post.finOff == if buf.fin then Some(buf.MaxOff()) else s.finOff
    ensures r.Err? ==> post == s
  {
    if r.Ok? && !Ignored(s, buf) {
      var fin := FinAfter(s, buf);
      assert ValidChunks(s.data, s.off, s.len, fin);
      FillSound(Store(s.data, s.len), s.off, buf, orders, Store(post.data, post.len), fin);
    } else {
      assert post.data[|s.data|..] == [];
    }
    forall x, v
      ensures Holds(post.data, x, v) <==>
                Holds(s.data, x, v) || (!Has(s.data, x) && Holds(post.data[|s.data|..], x, v))
    {
      AppendedHolds(s.data, post.data, x, v);
    }
  }

  /** What a push that is not refused changes: the length is raised only as far as the chunks
      stored reach. */
  lemma PushGrows(s: Recv, buf: RangeBuf, orders: seq<seq<RangeBuf>>, r: Result<()>, post: Recv)
    requires s.Valid() && r.Ok? && Pushed(s, buf, orders, r, post)
    ensures s.len <= post.len <= Max(s.len, buf.MaxOff())
    ensures post.len == s.len || exists b :: b in post.data && b.MaxOff() == post.len
    ensures post == s.(data := post.data, len := post.len,
                       finOff := if buf.fin then Some(buf.MaxOff()) else s.finOff)
  {
    if !Ignored(s, buf) {
      FillSound(Store(s.data, s.len), s.off, buf, orders, Store(post.data, post.len), FinAfter(s, buf));
      FillLength(Store(s.data, s.len), s.off, buf, orders, Store(post.data, post.len));
    }
  }

  lemma {:induction false} FillLength(pre: Store, off: nat, buf: RangeBuf, orders: seq<seq<RangeBuf>>, post: Store)
    requires off <= buf.MaxOff() && Filled(pre, off, buf, orders, post)
    ensures post.len == pre.len || exists b :: b in post.data && b.MaxOff() == post.len
    decreases |orders|
  {
    var r := Pass(orders[0], Fresh(buf, off), None);
    if r.Fits? {
      var mid := Added(pre, r.head);
      assert r.head in mid.data;
      if r.rest.Some? {
        FillExtends(mid, off, r.rest.value, orders[1..], post);
        FillLength(mid, off, r.rest.value, orders[1..], post);
      }
    }
  }

  /** The stream may be `size` bytes long, by all that was received and by this frame. */
  predicate Agrees(s: Recv, buf: RangeBuf, size: nat) {
    && (s.finOff.Some? ==> size == s.finOff.value)
    && (buf.fin ==> size == buf.MaxOff())
    && s.len <= size && buf.MaxOff() <= size
  }

  /** A frame is refused for flow control exactly when it ends beyond the limit, and otherwise
      for its final size exactly when no size agrees with it and with what was received. */
  lemma PushRefusedIff(s: Recv, buf: RangeBuf, orders: seq<seq<RangeBuf>>, r: Result<()>, post: Recv)
    requires s.Valid() && Pushed(s, buf, orders, r, post)
    ensures r == Err(FlowControl) <==> buf.MaxOff() > s.maxData
    ensures r == Err(FinalSize) <==> buf.MaxOff() <= s.maxData && forall size: nat :: !Agrees(s, buf, size)
    ensures r.Err? ==> r.error in {FlowControl, FinalSize}
  {
    var size := if s.finOff.Some? then s.finOff.value else if buf.fin then buf.MaxOff() else Max(s.len, buf.MaxOff());
    assert PushError(s, buf) != Some(FlowControl) ==> (PushError(s, buf).None? <==> Agrees(s, buf, size));
    forall f: nat | Agrees(s, buf, f)
      ensures Agrees(s, buf, size)
    {
    }
  }

  lemma SomeChunk(data: seq<RangeBuf>)
    requires data != []
    ensures exists b :: b in data
  {
    assert data[0] in data;
  }

  /** When a frame tells the receiver that it has read everything, the end of the stream can
      be read if and only if that frame is empty: a frame with data that was read already is
      put away, and nothing is left that a read could return. */
  lemma EndReadableIff(s: Recv, buf: RangeBuf, orders: seq<seq<RangeBuf>>, post: Recv)
    requires s.Valid() && Pushed(s, buf, orders, Ok(()), post) && !s.drain
    requires s.finOff.None? && buf.fin && buf.MaxOff() == s.off
    ensures post.IsFin() && (post.Ready() <==> buf.data == [])
  {
    if s.data != [] {
      SomeChunk(s.data);
    }
    if buf.data == [] {
      assert |multiset(orders[0])| == |orders[0]|;
      assert Fresh(buf, s.off) == buf;
    }
  }

  /** The conditions under which the insertion loop runs. */
  lemma ReadyToFill(s: Recv, buf: RangeBuf)
    requires s.Valid() && PushError(s, buf).None? && !Ignored(s, buf)
    ensures ValidChunks(s.data, s.off, s.len, FinAfter(s, buf))
    ensures FinAfter(s, buf).Some? ==> buf.MaxOff() <= FinAfter(s, buf).value
  {
  }

  lemma IgnoredIsPushed(s: Recv, buf: RangeBuf)
    requires s.Valid() && PushError(s, buf).None? && Ignored(s, buf)
    ensures var post := s.(finOff := FinAfter(s, buf)); Pushed(s, buf, [], Ok(()), post) && post.Valid()
  {
    PushSound(s, buf, [], Ok(()), s.(finOff := FinAfter(s, buf)));
  }

  lemma FilledIsPushed(s: Recv, buf: RangeBuf, orders: seq<seq<RangeBuf>>, data: seq<RangeBuf>, len: nat)
    requires s.Valid() && PushError(s, buf).None? && !Ignored(s, buf)
    requires Filled(Store(s.data, s.len), s.off, buf, orders, Store(data, len))
    ensures var post := s.(data := data, len := len, finOff := FinAfter(s, buf));
            Pushed(s, buf, orders, Ok(()), post) && post.Valid()
  {
    var post := s.(data := data, len := len, finOff := FinAfter(s, buf));
    assert Pushed(s, buf, orders, Ok(()), post);
    PushSound(s, buf, orders, Ok(()), post);
  }

  lemma {:induction false} FilledDetermined(pre: Store, off: nat, buf: RangeBuf, orders: seq<seq<RangeBuf>>,
                                            a: Store, b: Store)
    requires off <= buf.MaxOff() && Filled(pre, off, buf, orders, a) && Filled(pre, off, buf, orders, b)
    ensures a == b
    decreases |orders|
  {
    var r := Pass(orders[0], Fresh(buf, off), None);
    if r.Fits? && r.rest.Some? {
      FilledDetermined(Added(pre, r.head), off, r.rest.value, orders[1..], a, b);
    }
  }

  /** Two pushes of the same chunk that meet the heap in the same orders have the same
      outcome; so `push` and `push_evaluation` differ in their statistics only. */
  lemma PushDetermined(s: Recv, buf: RangeBuf, orders: seq<seq<RangeBuf>>, r: Result<()>, a: Recv,
                       q: Result<()>, b: Recv)
    requires s.Valid() && Pushed(s, buf, orders, r, a) && Pushed(s, buf, orders, q, b)
    ensures r == q && a == b
  {
    if r.Ok? && !Ignored(s, buf) {
      FilledDetermined(Store(s.data, s.len), s.off, buf, orders, Store(a.data, a.len), Store(b.data, b.len));
    }
  }

  lemma AppendedHolds(pre: seq<RangeBuf>, post: seq<RangeBuf>, x: int, v: byte)
    requires pre <= post && Apart(post)
    ensures Holds(post, x, v) <==> Holds(pre, x, v) || (!Has(pre, x) && Holds(post[|pre|..], x, v))
  {
    assert post == pre + post[|pre|..];
  }

  // ---------- reading ----------

  /** `pop` with room for `cap` bytes hands out `out`: the buffered bytes that follow
      the read offset without a gap, as many as fit. With room to spare nothing is left to read,
      an empty chunk that marks the end included. */
  ghost predicate Popped(s: Recv, cap: nat, out: seq<byte>, post: Recv) {
    && post.Valid()
    && |out| <= cap
    && (forall k :: 0 <= k < |out| ==> Holds(s.data, s.off + k, out[k]))
    && (|out| == cap || (!Has(s.data, s.off + |out|) && !post.Ready()))
    && post == s.(data := post.data, off := s.off + |out|, maxDataNext := SaturatingAdd(s.maxDataNext, |out|))
    && (forall x, v :: Holds(post.data, x, v) <==> Holds(s.data, x, v) && post.off <= x)
    && Bytes(post.data) + |out| == Bytes(s.data)
  }

  // ---------- final size and limits ----------

  /** RESET_STREAM: fixes the final size; on success the result is the credit that
      the missing bytes give back to the connection. */
  function ResetTo(s: Recv, finalSize: nat): Result<(nat, Recv)> {
    if s.finOff.Some? && s.finOff.value != finalSize then Err(FinalSize)
    else if finalSize < s.len then Err(FinalSize)
    else Ok((finalSize - s.len, s.(finOff := Some(finalSize))))
  }

  /** A reset is refused exactly when its final size does not agree with what was received, as
      an empty frame that ends the stream there would not; otherwise it fixes the size, and
      what was received and the credit make it up. */
  lemma ResetOutcome(s: Recv, finalSize: nat)
    requires s.Valid()
    ensures ResetTo(s, finalSize).Err? <==> !Agrees(s, RangeBuf([], finalSize, true), finalSize)
    ensures ResetTo(s, finalSize).Err? ==> ResetTo(s, finalSize).error == FinalSize
    ensures ResetTo(s, finalSize).Ok? ==>
              var (credit, t) := ResetTo(s, finalSize).value;
              s.len + credit == finalSize && t.finOff == Some(finalSize) && t == s.(finOff := t.finOff)
  {
  }

  function Shut(s: Recv): Result<Recv> {
    if s.drain then Err(Done) else Ok(s.(drain := true, data := []))
  }

  /** `almost_full`: a larger limit is due, and of use. */
  predicate AlmostFull(s: Recv) {
    s.finOff.None? && s.len <= s.maxData && UpdateDue(s.len, s.maxData, s.maxDataNext)
  }

  function Committed(s: Recv): Recv {
    s.(maxData := s.maxDataNext)
  }

  lemma LimitsKeepValid(s: Recv, finalSize: nat)
    requires s.Valid()
    ensures Committed(s).Valid()
    ensures ResetTo(s, finalSize).Ok? ==> ResetTo(s, finalSize).value.1.Valid()
    ensures Shut(s).Ok? ==> Shut(s).value.Valid()
  {
  }
}
