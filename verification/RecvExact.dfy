/** Exactly when a push keeps every byte whatever the iteration order of the heap. */
module RecvExactness {
  import opened Prelude
  import opened Chunks
  import opened ChunkHeap
  import opened RecvSpec
  import opened RecvCompleteness

  /** Two buffered chunks that, visited as `hi` then `lo`, make the loop forget the
      missing byte `x` beyond `hi`: either `lo` starts between the start of the input
      and `hi`, or `lo` covers the input from its start right up to `hi`. */
  ghost predicate Exposes(data: seq<RangeBuf>, start: nat, buf: RangeBuf, lo: RangeBuf, hi: RangeBuf, x: int) {
    && lo in data && hi in data
    && start < hi.off && hi.MaxOff() <= x < buf.MaxOff()
    && !Has(data, x)
    && (start < lo.off < hi.off || (lo.off <= start && lo.MaxOff() == hi.off))
  }

  ghost predicate Exposed(data: seq<RangeBuf>, start: nat, buf: RangeBuf) {
    exists lo, hi, x :: Exposes(data, start, buf, lo, hi, x)
  }

  /** A missing byte of the piece either stays in the piece, or was moved to the slot
      at the start of some chunk `hi`; it is then at risk. */
  ghost predicate Tracked(data: seq<RangeBuf>, start: nat, head: RangeBuf, rest: Option<RangeBuf>, x: int) {
    && start <= head.off && |head.data| > 0
    && (head.Covers(x) ||
        (rest.Some? && rest.value.Covers(x) && head.MaxOff() == rest.value.off &&
         exists hi :: hi in data && hi.off == rest.value.off && start < hi.off && hi.MaxOff() <= x))
  }

  lemma VisitTracks(data: seq<RangeBuf>, start: nat, buf: RangeBuf, b: RangeBuf, head: RangeBuf,
                    rest: Option<RangeBuf>, x: int)
    requires Apart(data) && b in data && !Has(data, x) && x < buf.MaxOff()
    requires !Exposed(data, start, buf)
    requires Tracked(data, start, head, rest, x)
    ensures var v := Visit(b, head, rest); v.Fits? && Tracked(data, start, v.head, v.rest, x)
  {
    if !head.Covers(x) {
      var hi :| hi in data && hi.off == rest.value.off && start < hi.off && hi.MaxOff() <= x;
      assert !Exposes(data, start, buf, b, hi, x);
      var i :| 0 <= i < |data| && data[i] == b;
      var j :| 0 <= j < |data| && data[j] == hi;
      assert i == j || Separate(b, hi);
    } else {
      assert !b.Covers(x);
    }
  }

  lemma {:induction false} PassTracks(data: seq<RangeBuf>, start: nat, buf: RangeBuf, order: seq<RangeBuf>,
                                      head: RangeBuf, rest: Option<RangeBuf>, x: int)
    requires Apart(data) && (forall b :: b in order ==> b in data) && !Has(data, x) && x < buf.MaxOff()
    requires !Exposed(data, start, buf)
    requires Tracked(data, start, head, rest, x)
    ensures var r := Pass(order, head, rest); r.Fits? && Tracked(data, start, r.head, r.rest, x)
  {
    if order != [] {
      VisitTracks(data, start, buf, order[0], head, rest, x);
      var v := Visit(order[0], head, rest);
      PassTracks(data, start, buf, order[1..], v.head, v.rest, x);
    }
  }

  /** The condition carries over to the next pass of the loop. */
  lemma NotExposedNext(data: seq<RangeBuf>, start: nat, buf: RangeBuf, head: RangeBuf, rest: RangeBuf, cut: RangeBuf)
    requires Apart(data) && !Exposed(data, start, buf)
    requires cut in data && |cut.data| > 0 && cut.off == rest.off && start < cut.off
    requires head.off < rest.off && head.MaxOff() <= rest.off && rest.MaxOff() <= buf.MaxOff()
    ensures !Exposed(data + [head], rest.off, rest)
  {
    forall lo, hi, x
      ensures !Exposes(data + [head], rest.off, rest, lo, hi, x)
    {
      assert !Exposes(data, start, buf, lo, hi, x);
      assert !Exposes(data, start, buf, cut, hi, x);
    }
  }

  lemma {:induction false} FillKeeps(pre: Store, off: nat, buf: RangeBuf, orders: seq<seq<RangeBuf>>, post: Store,
                                     finOff: Option<nat>, x: int)
    requires off < buf.MaxOff() && |buf.data| > 0 && Filled(pre, off, buf, orders, post)
    requires ValidChunks(pre.data, off, pre.len, finOff) && (finOff.Some? ==> buf.MaxOff() <= finOff.value)
    requires !Exposed(pre.data, Max(off, buf.off), buf)
    requires Max(off, buf.off) <= x < buf.MaxOff()
    ensures Has(post.data, x)
    decreases |orders|
  {
    FillExtends(pre, off, buf, orders, post);
    if Has(pre.data, x) {
      assert Has(post.data, x);
    } else {
      var start := Max(off, buf.off);
      var cut := Fresh(buf, off);
      forall b | b in orders[0]
        ensures b in pre.data
      {
        assert b in multiset(orders[0]);
      }
      PassTracks(pre.data, start, buf, orders[0], cut, None, x);
      PassOnHeap(pre, off, buf, orders[0], finOff);
      var r := Pass(orders[0], cut, None);
      if r.rest.Some? {
        FillExtends(Added(pre, r.head), off, r.rest.value, orders[1..], post);
      }
      if r.head.Covers(x) {
        assert r.head in Added(pre, r.head).data;
      } else {
        var hi :| hi in pre.data && hi.off == r.rest.value.off && start < hi.off && hi.MaxOff() <= x;
        NotExposedNext(pre.data, start, buf, r.head, r.rest.value, hi);
        FillKeeps(Added(pre, r.head), off, r.rest.value, orders[1..], post, finOff, x);
      }
    }
  }

  /** Some visit order exists for every pass, so the loop can always be run. */
  lemma {:induction false} FillExists(pre: Store, off: nat, buf: RangeBuf)
    returns (orders: seq<seq<RangeBuf>>, post: Store)
    requires off <= buf.MaxOff()
    ensures Filled(pre, off, buf, orders, post)
    decreases |buf.data|
  {
    var cut := Fresh(buf, off);
    SplitWithin(buf, cut.off - buf.off, buf);
    PassPieces(pre.data, cut, None, buf);
    match Pass(pre.data, cut, None)
    case Contained =>
      orders, post := [pre.data], pre;
    case Fits(head, None) =>
      orders, post := [pre.data], Added(pre, head);
    case Fits(head, Some(rest)) =>
      orders, post := FillExists(Added(pre, head), off, rest);
      orders := [pre.data] + orders;
  }

  /** What the loop adds lies within its input. */
  lemma {:induction false} FillAdds(pre: Store, off: nat, buf: RangeBuf, orders: seq<seq<RangeBuf>>, post: Store, x: int)
    requires off <= buf.MaxOff() && Filled(pre, off, buf, orders, post)
    requires !buf.Covers(x) && !Has(pre.data, x)
    ensures !Has(post.data, x)
    decreases |orders|
  {
    var cut := Fresh(buf, off);
    SplitWithin(buf, cut.off - buf.off, buf);
    PassPieces(orders[0], cut, None, buf);
    var r := Pass(orders[0], cut, None);
    if r.Fits? && r.rest.Some? {
      FillAdds(Added(pre, r.head), off, r.rest.value, orders[1..], post, x);
    }
  }

  lemma Front(data: seq<RangeBuf>, a: RangeBuf) returns (others: seq<RangeBuf>)
    requires a in data
    ensures multiset(data) == multiset([a] + others)
  {
    var i :| 0 <= i < |data| && data[i] == a;
    others := Without(data, i);
    assert data == data[..i] + [a] + data[i + 1..];
  }

  /** Any two distinct members of a bag can be visited first. */
  lemma Reorder(data: seq<RangeBuf>, a: RangeBuf, b: RangeBuf) returns (order: seq<RangeBuf>)
    requires a in data && b in data && a != b
    ensures multiset(order) == multiset(data) && |order| >= 2 && order[0] == a && order[1] == b
  {
    var others := Front(data, a);
    assert b in multiset([a] + others);
    var last := Front(others, b);
    order := [a] + ([b] + last);
    assert multiset(order) == multiset([a]) + multiset([b] + last);
  }

  /** Visiting `hi` and then `lo` first makes the loop forget byte `x`. */
  lemma ExposedLoses(pre: Store, off: nat, buf: RangeBuf, lo: RangeBuf, hi: RangeBuf, x: int)
    returns (orders: seq<seq<RangeBuf>>, post: Store)
    requires off < buf.MaxOff()
    requires Exposes(pre.data, Max(off, buf.off), buf, lo, hi, x)
    ensures Filled(pre, off, buf, orders, post) && !Has(post.data, x)
  {
    var order := Reorder(pre.data, hi, lo);
    var cut := Fresh(buf, off);
    var v := Visit(hi, cut, None);
    assert v == Fits(cut.Head(hi.off - cut.off), Some(cut.Tail(hi.off - cut.off)));
    var w := Visit(lo, v.head, v.rest);
    var r := Pass(order, cut, None);
    assert Pass(order[1..], v.head, v.rest) == r;
    if w.Contained? {
      orders, post := [order], pre;
    } else {
      assert Pass(order[1..][1..], w.head, w.rest) == r;
      PassSeparates(order[1..][1..], w.head, w.rest);
      assert w.head.MaxOff() <= hi.off && w.rest.value.MaxOff() <= hi.off;
      if r.Contained? {
        orders, post := [order], pre;
      } else {
        PassRestBelow(order[1..][1..], w.head, w.rest, hi.off);
        orders, post := FillExists(Added(pre, r.head), off, r.rest.value);
        FillAdds(Added(pre, r.head), off, r.rest.value, orders, post, x);
        orders := [order] + orders;
      }
    }
  }

  lemma {:induction false} PassRestBelow(order: seq<RangeBuf>, head: RangeBuf, rest: Option<RangeBuf>, bound: nat)
    requires head.MaxOff() <= bound && (rest.Some? ==> rest.value.MaxOff() <= bound)
    ensures var r := Pass(order, head, rest); r.Fits? && r.rest.Some? ==> r.rest.value.MaxOff() <= bound
  {
    if order != [] && Visit(order[0], head, rest).Fits? {
      var v := Visit(order[0], head, rest);
      PassRestBelow(order[1..], v.head, v.rest, bound);
    }
  }

  /** A push keeps every byte it is given under all iteration orders of the heap
      exactly when no two buffered chunks expose a missing byte beyond them. */
  lemma CompleteInEveryOrderIff(s: Recv, buf: RangeBuf)
    requires s.Valid() && PushError(s, buf).None? && !Ignored(s, buf)
    ensures (forall orders, post :: Pushed(s, buf, orders, Ok(()), post) ==> Complete(post.data, s.off, buf))
            <==> !Exposed(s.data, Max(s.off, buf.off), buf)
  {
    var pre := Store(s.data, s.len);
    if Exposed(s.data, Max(s.off, buf.off), buf) {
      var lo, hi, x :| Exposes(s.data, Max(s.off, buf.off), buf, lo, hi, x);
      var orders, out := ExposedLoses(pre, s.off, buf, lo, hi, x);
      var post := s.(data := out.data, len := out.len, finOff := FinAfter(s, buf));
      assert Pushed(s, buf, orders, Ok(()), post);
      assert !Complete(post.data, s.off, buf);
    } else {
      forall orders, post | Pushed(s, buf, orders, Ok(()), post)
        ensures Complete(post.data, s.off, buf)
      {
        forall x | Max(s.off, buf.off) <= x < buf.MaxOff()
          ensures Has(post.data, x)
        {
          FillKeeps(pre, s.off, buf, orders, Store(post.data, post.len), FinAfter(s, buf), x);
        }
      }
    }
  }
}
