/** When a push loses bytes in the orders that a heap can have (src/stream.rs): exactly, for
    heaps of two chunks and for all orders that begin with the lowest chunk. */
module RecvHeaps {
  import opened Prelude
  import opened Chunks
  import opened ChunkHeap
  import opened RecvSpec
  import opened RecvCompleteness
  import opened RecvExactness

  // ---------- heaps of two chunks ----------

  /** What is left over begins where some chunk does, and behind the piece. */
  lemma {:induction false} RestAtChunk(order: seq<RangeBuf>, head: RangeBuf, rest: Option<RangeBuf>)
    requires rest.Some? ==> head.MaxOff() <= rest.value.off
    ensures var r := Pass(order, head, rest);
            r.Fits? && r.rest.Some? ==>
              && r.head.MaxOff() <= r.rest.value.off
              && (r.rest == rest || exists b :: b in order && b.off == r.rest.value.off)
  {
    if order != [] && Visit(order[0], head, rest).Fits? {
      var v := Visit(order[0], head, rest);
      RestAtChunk(order[1..], v.head, v.rest);
    }
  }

  /** Two chunks behind the start of the input that touch, with a byte of the input beyond. */
  ghost predicate Touching(data: seq<RangeBuf>, start: nat, buf: RangeBuf, lo: RangeBuf, hi: RangeBuf) {
    && lo in data && hi in data
    && start < lo.off < lo.MaxOff() == hi.off && hi.MaxOff() < buf.MaxOff()
  }

  ghost predicate Touches(data: seq<RangeBuf>, start: nat, buf: RangeBuf) {
    exists lo, hi :: Touching(data, start, buf, lo, hi)
  }

  /** A heap of two chunks is met in ascending order; what is left for the other passes is not
      exposed unless the two touch. */
  lemma TwoChunksKeepAll(s: Recv, buf: RangeBuf, orders: seq<seq<RangeBuf>>, post: Recv)
    requires s.Valid() && PushError(s, buf).None? && !Ignored(s, buf) && Pushed(s, buf, orders, Ok(()), post)
    requires |s.data| == 2 && HeapOrdered(orders[0]) && !Touches(s.data, Max(s.off, buf.off), buf)
    ensures Complete(post.data, s.off, buf)
  {
    var order := orders[0];
    assert |multiset(order)| == |multiset(s.data)| == 2;
    assert Ascending(order);
    SameMembers(order, s.data);
    forall x | Max(s.off, buf.off) <= x < buf.MaxOff()
      ensures Has(post.data, x)
    {
      TwoChunksKeep(Store(s.data, s.len), s.off, buf, orders, Store(post.data, post.len), FinAfter(s, buf), x);
    }
  }

  lemma SameMembers(order: seq<RangeBuf>, data: seq<RangeBuf>)
    requires multiset(order) == multiset(data)
    ensures forall b :: b in order <==> b in data
  {
    forall b
      ensures b in order <==> b in data
    {
      assert b in multiset(order) <==> b in multiset(data);
    }
  }

  lemma TwoChunksKeep(pre: Store, off: nat, buf: RangeBuf, orders: seq<seq<RangeBuf>>, post: Store,
                      finOff: Option<nat>, x: int)
    requires off < buf.MaxOff() && |buf.data| > 0 && Filled(pre, off, buf, orders, post)
    requires ValidChunks(pre.data, off, pre.len, finOff) && (finOff.Some? ==> buf.MaxOff() <= finOff.value)
    requires |pre.data| == 2 && Ascending(orders[0]) && forall b :: b in orders[0] <==> b in pre.data
    requires !Touches(pre.data, Max(off, buf.off), buf) && Max(off, buf.off) <= x < buf.MaxOff()
    ensures Has(post.data, x)
  {
    hide Pass, Exposed, Touches;
    var cut := Fresh(buf, off);
    AscendingPassKeeps(orders[0], cut, x);
    FillExtends(pre, off, buf, orders, post);
    PassOnHeap(pre, off, buf, orders[0], finOff);
    var r := Pass(orders[0], cut, None);
    if !Has(pre.data, x) && r.Fits? {
      if r.head.Covers(x) {
        HeadStays(pre, off, r.head, r.rest, orders[1..], post, x);
      } else {
        RestAtChunk(orders[0], cut, None);
        PassSeparates(orders[0], cut, None);
        TwoNotExposed(pre.data, cut.off, buf, r.head, r.rest.value);
        FillKeeps(Added(pre, r.head), off, r.rest.value, orders[1..], post, finOff, x);
      }
    }
  }

  /** What a pass stored stays. */
  lemma HeadStays(pre: Store, off: nat, head: RangeBuf, rest: Option<RangeBuf>, orders: seq<seq<RangeBuf>>, post: Store, x: int)
    requires head.Covers(x)
    requires if rest.None? then post == Added(pre, head)
             else off <= rest.value.MaxOff() && Filled(Added(pre, head), off, rest.value, orders, post)
    ensures Has(post.data, x)
  {
    if rest.Some? {
      FillExtends(Added(pre, head), off, rest.value, orders, post);
    }
    assert head in Added(pre, head).data;
  }

  /** Two chunks that do not touch expose nothing to a piece that begins where one of them does. */
  lemma TwoNotExposed(data: seq<RangeBuf>, start: nat, buf: RangeBuf, head: RangeBuf, rest: RangeBuf)
    requires Apart(data) && |data| == 2 && head.MaxOff() <= rest.off
    requires start < rest.off && rest.MaxOff() <= buf.MaxOff() && !Touches(data, start, buf)
    requires exists b :: b in data && b.off == rest.off
    ensures !Exposed(data + [head], rest.off, rest)
  {
    forall lo, hi, x
      ensures !Exposes(data + [head], rest.off, rest, lo, hi, x)
    {
      assert !Touching(data, start, buf, lo, hi);
    }
  }

  lemma FirstPassSplits(lo: RangeBuf, hi: RangeBuf, cut: RangeBuf)
    requires cut.off < lo.off < lo.MaxOff() == hi.off && hi.off < cut.MaxOff()
    ensures Pass([lo, hi], cut, None) == Fits(cut.Head(lo.off - cut.off), Some(cut.Tail(lo.off - cut.off)))
  {
    var head, rest := cut.Head(lo.off - cut.off), cut.Tail(lo.off - cut.off);
    assert [lo, hi][1..] == [hi];
    assert Visit(lo, cut, None) == Fits(head, Some(rest));
    assert Pass([hi], head, Some(rest)) == Fits(head, Some(rest));
  }

  lemma SecondPassForgets(head: RangeBuf, hi: RangeBuf, lo: RangeBuf, rest: RangeBuf)
    requires head.MaxOff() == rest.off == lo.off < lo.MaxOff() == hi.off < hi.MaxOff() + 1 <= rest.MaxOff()
    ensures Pass([head, hi, lo], rest, None) == Contained
  {
    var low, high := rest.Head(hi.off - rest.off), rest.Tail(hi.off - rest.off);
    assert [head, hi, lo][1..] == [hi, lo] && [hi, lo][1..] == [lo];
    assert Visit(hi, rest, None) == Fits(low, Some(high));
    assert Pass([lo], low, Some(high)) == Contained;
    assert Pass([hi, lo], rest, None) == Contained;
    assert Visit(head, rest, None) == Fits(rest, None);
  }

  /** Two chunks that touch lose what lies beyond them: the first pass stores what lies before
      them, and the heap then meets the upper one first. */
  lemma TouchingLoses(pre: Store, off: nat, buf: RangeBuf, lo: RangeBuf, hi: RangeBuf)
    returns (orders: seq<seq<RangeBuf>>, post: Store)
    requires off < buf.MaxOff() && multiset(pre.data) == multiset([lo, hi])
    requires Touching(pre.data, Max(off, buf.off), buf, lo, hi)
    ensures Filled(pre, off, buf, orders, post) && !Has(post.data, hi.MaxOff())
    ensures forall k :: 0 <= k < |orders| ==> HeapOrdered(orders[k])
  {
    hide Pass;
    var cut := Fresh(buf, off);
    var head, rest := cut.Head(lo.off - cut.off), cut.Tail(lo.off - cut.off);
    FirstPassSplits(lo, hi, cut);
    SecondPassForgets(head, hi, lo, rest);
    orders, post := [[lo, hi], [head, hi, lo]], Added(pre, head);
    assert [head, hi, lo] == [head] + [hi] + [lo];
    assert multiset(post.data) == multiset(orders[1]);
    assert orders[1..] == [[head, hi, lo]];
    assert Filled(post, off, rest, orders[1..], post);
    SameMembers([head, hi, lo], post.data);
  }

  lemma TouchingIncomplete(s: Recv, buf: RangeBuf) returns (orders: seq<seq<RangeBuf>>, post: Recv)
    requires s.Valid() && PushError(s, buf).None? && !Ignored(s, buf) && |s.data| == 2
    requires Touches(s.data, Max(s.off, buf.off), buf)
    ensures Pushed(s, buf, orders, Ok(()), post) && !Complete(post.data, s.off, buf)
    ensures forall k :: 0 <= k < |orders| ==> HeapOrdered(orders[k])
  {
    hide Filled, ValidChunks, HeapOrdered;
    var lo, hi :| Touching(s.data, Max(s.off, buf.off), buf, lo, hi);
    assert s.data == [s.data[0], s.data[1]];
    var out;
    orders, out := TouchingLoses(Store(s.data, s.len), s.off, buf, lo, hi);
    post := s.(data := out.data, len := out.len, finOff := FinAfter(s, buf));
  }

  /** For a heap of two chunks: a push keeps every byte in all orders that a heap can have
      exactly when the chunks do not touch with a byte of the input on either side. */
  lemma TwoChunkHeapIff(s: Recv, buf: RangeBuf)
    requires s.Valid() && PushError(s, buf).None? && !Ignored(s, buf) && |s.data| == 2
    ensures (forall orders, post :: Pushed(s, buf, orders, Ok(()), post) && (forall k :: 0 <= k < |orders| ==> HeapOrdered(orders[k]))
               ==> Complete(post.data, s.off, buf))
            <==> !Touches(s.data, Max(s.off, buf.off), buf)
  {
    hide Touches, HeapOrdered, Pushed, Complete, PushError, Ignored;
    if Touches(s.data, Max(s.off, buf.off), buf) {
      var orders, post := TouchingIncomplete(s, buf);
    } else {
      forall orders, post | Pushed(s, buf, orders, Ok(()), post) && forall k :: 0 <= k < |orders| ==> HeapOrdered(orders[k])
        ensures Complete(post.data, s.off, buf)
      {
        PassesRun(s, buf, orders, post);
        TwoChunksKeepAll(s, buf, orders, post);
      }
    }
  }

  lemma PassesRun(s: Recv, buf: RangeBuf, orders: seq<seq<RangeBuf>>, post: Recv)
    requires s.Valid() && PushError(s, buf).None? && !Ignored(s, buf) && Pushed(s, buf, orders, Ok(()), post)
    ensures orders != []
  {
  }

  // ---------- orders that begin with the lowest chunk ----------

  /** Iterating over a heap meets its lowest chunk first. */
  ghost predicate LowestFirst(order: seq<RangeBuf>) {
    forall i :: 0 <= i < |order| ==> order[0].off <= order[i].off
  }

  lemma {:induction false} HeapIsLowestFirst(order: seq<RangeBuf>, i: nat)
    requires HeapOrdered(order) && i < |order|
    ensures order[0].off <= order[i].off
  {
    if i > 0 {
      HeapIsLowestFirst(order, (i - 1) / 2);
      assert order[(i - 1) / 2].off <= order[i].off;
    }
  }

  /** Where the input begins for the other chunks, once the lowest one was met: at that chunk, or
      behind it. */
  function StartAfter(data: seq<RangeBuf>, start: nat): nat {
    if data == [] then start
    else
      var m := data[Lowest(data)];
      if start < m.off then m.off else Max(start, m.MaxOff())
  }

  lemma {:induction false} PassKeeps(data: seq<RangeBuf>, start: nat, buf: RangeBuf, order: seq<RangeBuf>, cut: RangeBuf,
                                     pre: Store, off: nat, orders: seq<seq<RangeBuf>>, post: Store, finOff: Option<nat>, x: int)
    requires ValidChunks(data, off, pre.len, finOff) && data == pre.data && (forall b :: b in order ==> b in data)
    requires !Exposed(data, start, buf) && !Has(data, x) && cut.Covers(x) && cut.off == start && cut.MaxOff() == buf.MaxOff()
    requires orders != [] && off < buf.MaxOff() && |buf.data| > 0 && Filled(pre, off, buf, orders, post)
    requires Pass(order, cut, None) == Pass(orders[0], Fresh(buf, off), None)
    requires finOff.Some? ==> buf.MaxOff() <= finOff.value
    ensures Has(post.data, x)
  {
    PassTracks(data, start, buf, order, cut, None, x);
    PassOnHeap(pre, off, buf, orders[0], finOff);
    var r := Pass(order, cut, None);
    if r.head.Covers(x) {
      HeadStays(pre, off, r.head, r.rest, orders[1..], post, x);
    } else {
      var hi :| hi in data && hi.off == r.rest.value.off && start < hi.off && hi.MaxOff() <= x;
      NotExposedNext(data, start, buf, r.head, r.rest.value, hi);
      FillKeeps(Added(pre, r.head), off, r.rest.value, orders[1..], post, finOff, x);
    }
  }

  /** A piece that the lowest chunk splits is not split again in this pass, and the rest of the
      input begins at that chunk. */
  lemma SplitAtLowest(order: seq<RangeBuf>, cut: RangeBuf)
    requires order != [] && LowestFirst(order) && cut.off < order[0].off < cut.MaxOff()
    ensures var n := order[0].off - cut.off;
            Pass(order, cut, None) == Fits(cut.Head(n), Some(cut.Tail(n)))
  {
    var n := order[0].off - cut.off;
    forall b | b in order[1..]
      ensures cut.Head(n).MaxOff() <= b.off
    {
      var i :| 0 <= i < |order[1..]| && order[1..][i] == b;
      assert order[i + 1] == b;
    }
    PassBeyond(order[1..], cut.Head(n), Some(cut.Tail(n)));
  }

  lemma NotExposedAfter(data: seq<RangeBuf>, start: nat, buf: RangeBuf, head: RangeBuf, rest: RangeBuf)
    requires !Exposed(data, start, buf) && head.MaxOff() == rest.off == start && rest.MaxOff() == buf.MaxOff()
    ensures !Exposed(data + [head], start, rest)
  {
    forall lo, hi, x
      ensures !Exposes(data + [head], start, rest, lo, hi, x)
    {
      assert !Exposes(data, start, buf, lo, hi, x);
    }
  }

  lemma SplitKeeps(pre: Store, off: nat, buf: RangeBuf, orders: seq<seq<RangeBuf>>, post: Store,
                   finOff: Option<nat>, x: int)
    requires off < buf.MaxOff() && |buf.data| > 0 && Filled(pre, off, buf, orders, post)
    requires ValidChunks(pre.data, off, pre.len, finOff) && (finOff.Some? ==> buf.MaxOff() <= finOff.value)
    requires LowestFirst(orders[0]) && orders[0] != [] && Max(off, buf.off) < orders[0][0].off < buf.MaxOff()
    requires !Exposed(pre.data, orders[0][0].off, buf)
    requires Max(off, buf.off) <= x < buf.MaxOff()
    ensures Has(post.data, x)
  {
    hide Exposed, LowestFirst, Pass;
    var order, cut := orders[0], Fresh(buf, off);
    var n := order[0].off - cut.off;
    SplitAtLowest(order, cut);
    if x < order[0].off {
      HeadStays(pre, off, cut.Head(n), Some(cut.Tail(n)), orders[1..], post, x);
    } else {
      PassOnHeap(pre, off, buf, order, finOff);
      NotExposedAfter(pre.data, order[0].off, buf, cut.Head(n), cut.Tail(n));
      FillKeeps(Added(pre, cut.Head(n)), off, cut.Tail(n), orders[1..], post, finOff, x);
    }
  }

  lemma VisitLowest(m: RangeBuf, cut: RangeBuf, x: int)
    requires cut.Covers(x) && !m.Covers(x) && (m.off <= cut.off || cut.MaxOff() <= m.off)
    ensures var v := Visit(m, cut, None);
            && v.Fits? && v.rest.None? && v.head.Covers(x) && v.head.MaxOff() == cut.MaxOff()
            && v.head.off == if cut.off < m.off then cut.off else Max(cut.off, m.MaxOff())
  {
  }

  lemma CutKeeps(pre: Store, off: nat, buf: RangeBuf, orders: seq<seq<RangeBuf>>, post: Store,
                 finOff: Option<nat>, x: int)
    requires off < buf.MaxOff() && |buf.data| > 0 && Filled(pre, off, buf, orders, post)
    requires ValidChunks(pre.data, off, pre.len, finOff) && (finOff.Some? ==> buf.MaxOff() <= finOff.value)
    requires orders[0] != [] && (forall b :: b in orders[0] ==> b in pre.data) && !Has(pre.data, x)
    requires orders[0][0].off <= Max(off, buf.off) || buf.MaxOff() <= orders[0][0].off
    requires var m, start := orders[0][0], Max(off, buf.off);
             !Exposed(pre.data, if start < m.off then start else Max(start, m.MaxOff()), buf)
    requires Max(off, buf.off) <= x < buf.MaxOff()
    ensures Has(post.data, x)
  {
    hide Exposed, ValidChunks;
    var order, cut := orders[0], Fresh(buf, off);
    var m := order[0];
    assert m in pre.data && !m.Covers(x);
    VisitLowest(m, cut, x);
    var head := Visit(m, cut, None).head;
    assert forall b :: b in order[1..] ==> b in pre.data;
    assert Pass(order, cut, None) == Pass(order[1..], head, None);
    hide Pass, Visit, Filled;
    PassKeeps(pre.data, head.off, buf, order[1..], head, pre, off, orders, post, finOff, x);
  }

  lemma LowestFirstKeeps(pre: Store, off: nat, buf: RangeBuf, orders: seq<seq<RangeBuf>>, post: Store,
                         finOff: Option<nat>, x: int)
    requires off < buf.MaxOff() && |buf.data| > 0 && Filled(pre, off, buf, orders, post)
    requires ValidChunks(pre.data, off, pre.len, finOff) && (finOff.Some? ==> buf.MaxOff() <= finOff.value)
    requires LowestFirst(orders[0]) && !Exposed(pre.data, StartAfter(pre.data, Max(off, buf.off)), buf)
    requires Max(off, buf.off) <= x < buf.MaxOff()
    ensures Has(post.data, x)
  {
    SameBag(pre, off, buf, orders, post);
    hide Exposed, Filled, LowestFirst, Lowest;
    var order, start := orders[0], Max(off, buf.off);
    if pre.data == [] {
      NothingExposed(start, buf);
      FillKeeps(pre, off, buf, orders, post, finOff, x);
    } else if Has(pre.data, x) {
      FillExtends(pre, off, buf, orders, post);
    } else {
      LowestIsFirst(order, pre.data);
      var m := order[0];
      if start < m.off < buf.MaxOff() {
        SplitKeeps(pre, off, buf, orders, post, finOff, x);
      } else {
        if start < m.off {
          NotExposedBeyond(pre.data, start, m.off, buf);
        }
        CutKeeps(pre, off, buf, orders, post, finOff, x);
      }
    }
  }

  lemma SameBag(pre: Store, off: nat, buf: RangeBuf, orders: seq<seq<RangeBuf>>, post: Store)
    requires off <= buf.MaxOff() && Filled(pre, off, buf, orders, post)
    ensures orders != [] && multiset(orders[0]) == multiset(pre.data) && (pre.data != [] ==> orders[0] != [])
    ensures forall b :: b in orders[0] <==> b in pre.data
  {
    SameMembers(orders[0], pre.data);
    if pre.data != [] {
      assert pre.data[0] in orders[0];
    }
  }

  lemma NothingExposed(start: nat, buf: RangeBuf)
    ensures !Exposed([], start, buf)
  {
  }

  /** When even the lowest chunk lies beyond the input, nothing is exposed. */
  lemma NotExposedBeyond(data: seq<RangeBuf>, start: nat, low: nat, buf: RangeBuf)
    requires (forall b :: b in data ==> low <= b.off) && buf.MaxOff() <= low
    ensures !Exposed(data, start, buf)
  {
  }

  lemma LowestIsFirst(order: seq<RangeBuf>, data: seq<RangeBuf>)
    requires multiset(order) == multiset(data) && LowestFirst(order) && order != [] && Apart(data)
    requires forall b :: b in order <==> b in data
    ensures data != [] && order[0] == data[Lowest(data)]
    ensures forall b :: b in data ==> order[0].off <= b.off
  {
    assert order[0] in data;
    var m := data[Lowest(data)];
    assert m in order;
    var i :| 0 <= i < |data| && data[i] == order[0];
  }

  lemma LowestInFront(data: seq<RangeBuf>) returns (order: seq<RangeBuf>)
    ensures multiset(order) == multiset(data) && LowestFirst(order)
    ensures data != [] ==> order != [] && order[0] == data[Lowest(data)]
  {
    if data == [] {
      order := [];
    } else {
      var m := data[Lowest(data)];
      var others := Front(data, m);
      order := [m] + others;
      InFront(data, m, others);
    }
  }

  lemma InFront(data: seq<RangeBuf>, m: RangeBuf, others: seq<RangeBuf>)
    requires multiset(data) == multiset([m] + others) && forall b :: b in data ==> m.off <= b.off
    ensures LowestFirst([m] + others)
  {
    var order := [m] + others;
    SameMembers(order, data);
    forall i | 0 <= i < |order|
      ensures order[0].off <= order[i].off
    {
      assert order[i] in order;
    }
  }

  /** The loop can always be run with such orders. */
  lemma {:induction false} FillLowestFirst(pre: Store, off: nat, buf: RangeBuf)
    returns (orders: seq<seq<RangeBuf>>, post: Store)
    requires off <= buf.MaxOff()
    ensures Filled(pre, off, buf, orders, post) && forall k :: 0 <= k < |orders| ==> LowestFirst(orders[k])
    decreases |buf.data|
  {
    hide LowestFirst;
    var cut := Fresh(buf, off);
    SplitWithin(buf, cut.off - buf.off, buf);
    var order := LowestInFront(pre.data);
    PassPieces(order, cut, None, buf);
    match Pass(order, cut, None)
    case Contained =>
      orders, post := [order], pre;
    case Fits(head, None) =>
      orders, post := [order], Added(pre, head);
    case Fits(head, Some(rest)) =>
      orders, post := FillLowestFirst(Added(pre, head), off, rest);
      orders := [order] + orders;
  }

  /** After `hi` and `lo` were met, byte `x` is not in the pieces that are left. */
  lemma ForgottenByPass(order: seq<RangeBuf>, cut: RangeBuf, lo: RangeBuf, hi: RangeBuf, x: int)
    requires |order| >= 2 && order[0] == hi && order[1] == lo
    requires cut.off < hi.off && hi.MaxOff() <= x < cut.MaxOff()
    requires cut.off < lo.off < hi.off || (lo.off <= cut.off && lo.MaxOff() == hi.off)
    ensures var r := Pass(order, cut, None);
            r.Fits? ==> !r.head.Covers(x) && (r.rest.Some? ==> r.rest.value.MaxOff() <= hi.off)
  {
    var v := Visit(hi, cut, None);
    assert v == Fits(cut.Head(hi.off - cut.off), Some(cut.Tail(hi.off - cut.off)));
    var w := Visit(lo, v.head, v.rest);
    assert Pass(order[1..], v.head, v.rest) == Pass(order, cut, None);
    if w.Fits? {
      assert Pass(order[1..][1..], w.head, w.rest) == Pass(order, cut, None);
      PassSeparates(order[1..][1..], w.head, w.rest);
      PassRestBelow(order[1..][1..], w.head, w.rest, hi.off);
    }
  }

  lemma ThreeFirst(data: seq<RangeBuf>, p: RangeBuf, hi: RangeBuf, lo: RangeBuf) returns (order: seq<RangeBuf>)
    requires p in data && hi in data && lo in data && p != hi && p != lo && hi != lo
    ensures multiset(order) == multiset(data) && |order| >= 3 && order[0] == p && order[1] == hi && order[2] == lo
  {
    var others := Front(data, p);
    assert hi in multiset([p] + others) && lo in multiset([p] + others);
    var last := Reorder(others, hi, lo);
    order := [p] + last;
    assert multiset(order) == multiset([p]) + multiset(last);
  }

  /** The lowest chunk `p` is met first and leaves `cut`; then `hi` and `lo` make the loop forget
      byte `x`. */
  lemma LosesBehind(pre: Store, off: nat, buf: RangeBuf, p: RangeBuf, cut: RangeBuf, lo: RangeBuf, hi: RangeBuf, x: int)
    returns (orders: seq<seq<RangeBuf>>, post: Store)
    requires off < buf.MaxOff() && p in pre.data && p != lo && p != hi && forall b :: b in pre.data ==> p.off <= b.off
    requires Visit(p, Fresh(buf, off), None) == Fits(cut, None) && cut.MaxOff() == buf.MaxOff()
    requires Exposes(pre.data, cut.off, buf, lo, hi, x)
    ensures Filled(pre, off, buf, orders, post) && !Has(post.data, x)
    ensures forall k :: 0 <= k < |orders| ==> LowestFirst(orders[k])
  {
    var order := ThreeFirst(pre.data, p, hi, lo);
    assert order == [p] + order[1..];
    InFront(pre.data, p, order[1..]);
    ForgottenByPass(order[1..], cut, lo, hi, x);
    var r := Pass(order, Fresh(buf, off), None);
    assert r == Pass(order[1..], cut, None);
    hide Pass, Visit, LowestFirst;
    if r.Contained? {
      orders, post := [order], pre;
    } else {
      RestReaches(order, Fresh(buf, off), off);
      orders, post := FillLowestFirst(Added(pre, r.head), off, r.rest.value);
      FillAdds(Added(pre, r.head), off, r.rest.value, orders, post, x);
      orders := [order] + orders;
    }
  }

  lemma RestReaches(order: seq<RangeBuf>, cut: RangeBuf, off: nat)
    requires off <= cut.off
    ensures var r := Pass(order, cut, None); r.Fits? && r.rest.Some? ==> off <= r.rest.value.MaxOff()
  {
  }

  /** What the second pass meets: the piece stored before, which does not touch the rest. */
  lemma SecondPass(data: seq<RangeBuf>, m: RangeBuf, off: nat, buf: RangeBuf, head: RangeBuf, rest: RangeBuf,
                   lo: RangeBuf, hi: RangeBuf, x: int)
    requires (forall b :: b in data ==> m.off <= b.off) && Exposes(data, m.off, buf, lo, hi, x)
    requires head.MaxOff() == rest.off == m.off && head.off < m.off && off <= m.off && rest.MaxOff() == buf.MaxOff()
    ensures Fresh(rest, off) == rest && Visit(head, rest, None) == Fits(rest, None)
    ensures Exposes(data + [head], rest.off, rest, lo, hi, x) && head != lo && head != hi
    ensures forall b :: b in data + [head] ==> head.off <= b.off
  {
  }

  /** The lowest chunk lies behind the start of the input: it splits the input, and what it
      exposes is lost in the second pass. */
  lemma LosesSecond(pre: Store, off: nat, buf: RangeBuf, lo: RangeBuf, hi: RangeBuf, x: int)
    returns (orders: seq<seq<RangeBuf>>, post: Store)
    requires off < buf.MaxOff() && pre.data != [] && Max(off, buf.off) < pre.data[Lowest(pre.data)].off
    requires Exposes(pre.data, pre.data[Lowest(pre.data)].off, buf, lo, hi, x)
    ensures Filled(pre, off, buf, orders, post) && !Has(post.data, x)
    ensures forall k :: 0 <= k < |orders| ==> LowestFirst(orders[k])
  {
    var m, cut := pre.data[Lowest(pre.data)], Fresh(buf, off);
    var order := LowestInFront(pre.data);
    var n := m.off - cut.off;
    SplitAtLowest(order, cut);
    var head, rest := cut.Head(n), cut.Tail(n);
    SecondPass(pre.data, m, off, buf, head, rest, lo, hi, x);
    hide Pass, Visit, LowestFirst, Lowest, Exposes;
    orders, post := LosesBehind(Added(pre, head), off, rest, head, rest, lo, hi, x);
    orders := [order] + orders;
  }

  /** The lowest chunk lies at or before the start of the input. */
  lemma LosesFirst(pre: Store, off: nat, buf: RangeBuf, lo: RangeBuf, hi: RangeBuf, x: int)
    returns (orders: seq<seq<RangeBuf>>, post: Store)
    requires off < buf.MaxOff() && pre.data != [] && pre.data[Lowest(pre.data)].off <= Max(off, buf.off)
    requires Exposes(pre.data, StartAfter(pre.data, Max(off, buf.off)), buf, lo, hi, x)
    ensures Filled(pre, off, buf, orders, post) && !Has(post.data, x)
    ensures forall k :: 0 <= k < |orders| ==> LowestFirst(orders[k])
  {
    var m, cut := pre.data[Lowest(pre.data)], Fresh(buf, off);
    var head := if cut.off < m.MaxOff() then cut.Tail(m.MaxOff() - cut.off) else cut;
    assert Visit(m, cut, None) == Fits(head, None);
    hide Visit, LowestFirst, Filled;
    orders, post := LosesBehind(pre, off, buf, m, head, lo, hi, x);
  }

  /** A push keeps every byte it is given in all orders that begin with the lowest chunk exactly
      when no two chunks expose a missing byte to what begins at or behind that chunk. */
  lemma LowestFirstIff(s: Recv, buf: RangeBuf)
    requires s.Valid() && PushError(s, buf).None? && !Ignored(s, buf)
    ensures (forall orders, post ::
               Pushed(s, buf, orders, Ok(()), post) && (forall k :: 0 <= k < |orders| ==> LowestFirst(orders[k]))
               ==> Complete(post.data, s.off, buf))
            <==> !Exposed(s.data, StartAfter(s.data, Max(s.off, buf.off)), buf)
  {
    if Exposed(s.data, StartAfter(s.data, Max(s.off, buf.off)), buf) {
      var orders, post := LowestFirstLoses(s, buf);
    } else {
      forall orders, post | Pushed(s, buf, orders, Ok(()), post) && forall k :: 0 <= k < |orders| ==> LowestFirst(orders[k])
        ensures Complete(post.data, s.off, buf)
      {
        LowestFirstComplete(s, buf, orders, post);
      }
    }
    hide Exposed, LowestFirst, Pushed, Complete;
  }

  lemma LowestFirstLoses(s: Recv, buf: RangeBuf) returns (orders: seq<seq<RangeBuf>>, post: Recv)
    requires s.Valid() && PushError(s, buf).None? && !Ignored(s, buf)
    requires Exposed(s.data, StartAfter(s.data, Max(s.off, buf.off)), buf)
    ensures Pushed(s, buf, orders, Ok(()), post) && !Complete(post.data, s.off, buf)
    ensures forall k :: 0 <= k < |orders| ==> LowestFirst(orders[k])
  {
    var start := StartAfter(s.data, Max(s.off, buf.off));
    var lo, hi, x :| Exposes(s.data, start, buf, lo, hi, x);
    ExposedByte(s.data, s.off, buf, lo, hi, x);
    hide Filled, LowestFirst, Exposes, Exposed, ValidChunks, StartAfter;
    var out;
    orders, out := LosesIt(Store(s.data, s.len), s.off, buf, lo, hi, x);
    post := s.(data := out.data, len := out.len, finOff := FinAfter(s, buf));
  }

  lemma ExposedByte(data: seq<RangeBuf>, off: nat, buf: RangeBuf, lo: RangeBuf, hi: RangeBuf, x: int)
    requires Exposes(data, StartAfter(data, Max(off, buf.off)), buf, lo, hi, x)
    ensures Max(off, buf.off) <= x < buf.MaxOff() && data != []
  {
  }

  lemma LosesIt(pre: Store, off: nat, buf: RangeBuf, lo: RangeBuf, hi: RangeBuf, x: int)
    returns (orders: seq<seq<RangeBuf>>, post: Store)
    requires off < buf.MaxOff() && pre.data != []
    requires Exposes(pre.data, StartAfter(pre.data, Max(off, buf.off)), buf, lo, hi, x)
    ensures Filled(pre, off, buf, orders, post) && !Has(post.data, x)
    ensures forall k :: 0 <= k < |orders| ==> LowestFirst(orders[k])
  {
    hide Filled, LowestFirst, Exposes;
    if Max(off, buf.off) < pre.data[Lowest(pre.data)].off {
      orders, post := LosesSecond(pre, off, buf, lo, hi, x);
    } else {
      orders, post := LosesFirst(pre, off, buf, lo, hi, x);
    }
  }

  lemma LowestFirstComplete(s: Recv, buf: RangeBuf, orders: seq<seq<RangeBuf>>, post: Recv)
    requires s.Valid() && PushError(s, buf).None? && !Ignored(s, buf) && Pushed(s, buf, orders, Ok(()), post)
    requires forall k :: 0 <= k < |orders| ==> LowestFirst(orders[k])
    requires !Exposed(s.data, StartAfter(s.data, Max(s.off, buf.off)), buf)
    ensures Complete(post.data, s.off, buf)
  {
    PassesRun(s, buf, orders, post);
    ReadyToFill(s, buf);
    hide Exposed, LowestFirst, Filled;
    forall x | Max(s.off, buf.off) <= x < buf.MaxOff()
      ensures Has(post.data, x)
    {
      LowestFirstKeeps(Store(s.data, s.len), s.off, buf, orders, Store(post.data, post.len), FinAfter(s, buf), x);
    }
  }

  /** So a heap loses nothing under that condition, however many chunks it holds. */
  lemma HeapKeepsAll(s: Recv, buf: RangeBuf, orders: seq<seq<RangeBuf>>, post: Recv)
    requires s.Valid() && PushError(s, buf).None? && !Ignored(s, buf) && Pushed(s, buf, orders, Ok(()), post)
    requires forall k :: 0 <= k < |orders| ==> HeapOrdered(orders[k])
    requires !Exposed(s.data, StartAfter(s.data, Max(s.off, buf.off)), buf)
    ensures Complete(post.data, s.off, buf)
  {
    forall k | 0 <= k < |orders|
      ensures LowestFirst(orders[k])
    {
      forall i | 0 <= i < |orders[k]|
        ensures orders[k][0].off <= orders[k][i].off
      {
        HeapIsLowestFirst(orders[k], i);
      }
    }
    hide HeapOrdered, LowestFirst, Exposed, Pushed;
    LowestFirstComplete(s, buf, orders, post);
  }
}
