/** When does a push keep every byte it is given?

    The insertion loop of `RecvBuf::push` has a single slot, `tmp_buf`, for the part
    of the input that lies beyond a buffered chunk. If a later chunk of the same pass
    splits the input again, or contains what is left of it, the slot's old content is
    lost. Whether that happens depends on the order in which the heap is iterated. */
module RecvCompleteness {
  import opened Prelude
  import opened Chunks
  import opened RecvSpec

  /** Every byte of `buf` at or above the read offset is buffered. */
  ghost predicate Complete(post: seq<RangeBuf>, off: nat, buf: RangeBuf) {
    forall x :: Max(off, buf.off) <= x < buf.MaxOff() ==> Has(post, x)
  }

  ghost predicate Ascending(order: seq<RangeBuf>) {
    forall i, j :: 0 <= i < j < |order| ==> order[i].off <= order[j].off
  }

  /** The order of a binary heap's vector: no chunk lies below its parent. */
  ghost predicate HeapOrdered(order: seq<RangeBuf>) {
    forall i, j :: 0 <= i < j < |order| && i == (j - 1) / 2 ==> order[i].off <= order[j].off
  }

  // ---------- ascending visits ----------

  /** Chunks at or beyond the end of the piece do not affect it. */
  lemma {:induction false} PassBeyond(order: seq<RangeBuf>, head: RangeBuf, rest: Option<RangeBuf>)
    requires |head.data| > 0 && forall b :: b in order ==> head.MaxOff() <= b.off
    ensures Pass(order, head, rest) == Fits(head, rest)
  {
    if order != [] {
      PassBeyond(order[1..], head, rest);
    }
  }

  /** In an ascending pass a byte of the piece is stored, left over, or buffered. */
  lemma {:induction false} AscendingPassKeeps(order: seq<RangeBuf>, head: RangeBuf, x: int)
    requires Ascending(order) && head.Covers(x)
    ensures var r := Pass(order, head, None);
            Has(order, x) || (r.Fits? && (r.head.Covers(x) || (r.rest.Some? && r.rest.value.Covers(x))))
  {
    if order != [] {
      var b := order[0];
      assert b in order;
      var v := Visit(b, head, None);
      if v.Fits? && v.rest.Some? {
        PassBeyond(order[1..], v.head, v.rest);
      } else if v.Fits? && !b.Covers(x) {
        AscendingPassKeeps(order[1..], v.head, x);
      }
    }
  }

  lemma {:induction false} AscendingFillComplete(pre: Store, off: nat, buf: RangeBuf, orders: seq<seq<RangeBuf>>,
                                                 post: Store, x: int)
    requires off <= buf.MaxOff() && Filled(pre, off, buf, orders, post)
    requires forall k :: 0 <= k < |orders| ==> Ascending(orders[k])
    requires Max(off, buf.off) <= x < buf.MaxOff()
    ensures pre.data <= post.data && Has(post.data, x)
    decreases |orders|
  {
    AscendingPassKeeps(orders[0], Fresh(buf, off), x);
    if Has(orders[0], x) {
      var b :| b in orders[0] && b.Covers(x);
      assert b in multiset(orders[0]);
      assert b in pre.data;
    }
    var r := Pass(orders[0], Fresh(buf, off), None);
    if r.Fits? && r.rest.Some? {
      var rest := r.rest.value;
      if rest.Covers(x) {
        AscendingFillComplete(Added(pre, r.head), off, rest, orders[1..], post, x);
      } else {
        FillExtends(Added(pre, r.head), off, rest, orders[1..], post);
      }
    }
    if r.Fits? && r.head.Covers(x) {
      assert r.head in Added(pre, r.head).data;
    }
  }

  /** If every pass visits the heap in ascending offset order, a push that buffers
      at all buffers every byte of its input from the read offset on. */
  lemma AscendingPushComplete(s: Recv, buf: RangeBuf, orders: seq<seq<RangeBuf>>, post: Recv)
    requires s.Valid() && Pushed(s, buf, orders, Ok(()), post) && !s.drain
    requires forall k :: 0 <= k < |orders| ==> Ascending(orders[k])
    ensures Complete(post.data, s.off, buf)
  {
    if !Ignored(s, buf) {
      forall x | Max(s.off, buf.off) <= x < buf.MaxOff()
        ensures Has(post.data, x)
      {
        AscendingFillComplete(Store(s.data, s.len), s.off, buf, orders, Store(post.data, post.len), x);
      }
    }
  }

  // ---------- chunks that meet no other ----------

  /** A piece that no chunk overlaps goes through a pass unchanged. */
  lemma {:induction false} PassMisses(order: seq<RangeBuf>, head: RangeBuf)
    requires head.data != []
    requires forall b :: b in order ==> b.MaxOff() <= head.off || head.MaxOff() <= b.off
    ensures Pass(order, head, None) == Fits(head, None)
  {
    if order != [] {
      assert order[0] in order;
      PassMisses(order[1..], head);
    }
  }

  /** A chunk beyond the read offset that overlaps no other is buffered as it is. */
  lemma PushMisses(s: Recv, b: RangeBuf)
    requires s.Valid() && PushError(s, b).None? && !s.drain && b.data != [] && s.off <= b.off && !b.fin
    requires forall c :: c in s.data ==> c.MaxOff() <= b.off || b.MaxOff() <= c.off
    ensures Pushed(s, b, [s.data], Ok(()), s.(data := s.data + [b], len := Max(s.len, b.MaxOff())))
  {
    PassMisses(s.data, b);
  }
}
