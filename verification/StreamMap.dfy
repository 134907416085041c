/** The stream map as the object the connection updates in place (src/stream.rs,
    `StreamMap`), and its scheduling step. */
module StreamMaps {
  import opened Prelude
  import opened Chunks
  import opened Limits
  import opened RangeSets
  import opened RecvSpec
  import opened SendSpec
  import opened StreamTables

  // ---------- the scheduling step, on values ----------

  function Reversed(s: seq<nat>): seq<nat> {
    if s == [] then [] else Reversed(s[1..]) + [s[0]]
  }

  /** The blocks offered by a walk from the back of the queue down to index `i`; `drop(k)` is
      what the scheduler answers when it is asked about entry `k`. */
  function Offered(queue: seq<nat>, drop: nat -> bool, i: nat): seq<nat>
    decreases |queue| - i
  {
    if i >= |queue| then [] else Offered(queue, drop, i + 1) + if drop(i) then [] else [queue[i]]
  }

  /** The blocks dropped by that walk. */
  function Dropped(queue: seq<nat>, drop: nat -> bool, i: nat): set<nat> {
    set k | i <= k < |queue| && drop(k) :: queue[k]
  }

  /** `VecDeque::swap_remove_back`: the last element takes the removed one's place. */
  function SwapRemoveBack(s: seq<nat>, i: nat): seq<nat>
    requires i < |s|
  {
    var n := |s| - 1;
    if i == n then s[..n] else s[..n][i := s[n]]
  }

  /** `VecDeque::swap_remove_front`: the first element takes the removed one's place. */
  function SwapRemoveFront(s: seq<nat>, i: nat): seq<nat>
    requires i < |s|
  {
    if i == 0 then s[1..] else s[i := s[0]][1..]
  }

  lemma SwapRemoveBackParts(s: seq<nat>, i: nat)
    requires i < |s|
    ensures |SwapRemoveBack(s, i)| == |s| - 1 && SwapRemoveBack(s, i)[..i] == s[..i]
    ensures multiset(SwapRemoveBack(s, i)[i..]) == multiset(s[i..]) - multiset{s[i]}
    ensures forall j :: 0 <= j < |s| - 1 ==> SwapRemoveBack(s, i)[j] == if j == i then s[|s| - 1] else s[j]
  {
    var t, n := SwapRemoveBack(s, i), |s| - 1;
    if i == n {
      assert s[i..] == [s[i]] && t[i..] == [];
    } else {
      assert s[i..] == [s[i]] + s[i + 1..n] + [s[n]];
      assert t[i..] == [s[n]] + s[i + 1..n];
    }
  }

  /** Every other entry keeps its distance from the back; the front one fills the gap. */
  lemma SwapRemoveFrontAt(s: seq<nat>, i: nat, j: nat)
    requires i < |s| && 1 <= j < |s|
    ensures |SwapRemoveFront(s, i)| == |s| - 1
    ensures SwapRemoveFront(s, i)[j - 1] == if j == i then s[0] else s[j]
  {
  }

  lemma SwapRemoveFrontBag(s: seq<nat>, i: nat)
    requires i < |s|
    ensures multiset(SwapRemoveFront(s, i)) == multiset(s) - multiset{s[i]}
  {
    if i == 0 {
      assert s == [s[0]] + s[1..];
    } else {
      assert s == [s[0]] + s[1..i] + [s[i]] + s[i + 1..];
      assert SwapRemoveFront(s, i) == s[1..i] + [s[0]] + s[i + 1..];
    }
  }

  /** What canceling a block changes. */
  datatype Board = Board(streams: map<nat, Stream>, canceled: set<nat>, canceledDepend: set<nat>, writable: set<nat>)

  function Stopped(s: Stream): Stream {
    s.(send := s.send.(shutdown := true, data := []))
  }

  /** `cancel_block`: the block is listed for a reset first, and then its sending side is
      shut down, which fails when that was done before. */
  function CancelBlock(b: Board, id: nat): (Result<()>, Board)
    requires id in b.streams
  {
    var c := b.(canceled := b.canceled + {id}, canceledDepend := b.canceledDepend + {id});
    if b.streams[id].send.shutdown then (Err(Done), c)
    else (Ok(()), c.(streams := c.streams[id := Stopped(c.streams[id])], writable := c.writable - {id}))
  }

  /** `after` is `before` with the blocks `ids` stopped and the blocks `listed` announced. */
  ghost predicate Canceled(before: Board, ids: set<nat>, listed: set<nat>, after: Board) {
    && after.streams.Keys == before.streams.Keys
    && (forall id :: id in before.streams ==>
          after.streams[id] == if id in ids then Stopped(before.streams[id]) else before.streams[id])
    && after.canceled == before.canceled + listed && after.canceledDepend == before.canceledDepend + listed
    && after.writable == before.writable - ids
  }

  /** What that means for a stream: only its sending side stops. Nothing more is queued there or
      taken, what was written and acknowledged stays on record, and the side that receives, with
      all that is buffered on it, is left alone. The block is announced and not writable. */
  lemma CanceledMeans(before: Board, ids: set<nat>, listed: set<nat>, after: Board, id: nat)
    requires Canceled(before, ids, listed, after) && id in before.streams
    ensures id in after.streams
    ensures var s, t := before.streams[id], after.streams[id];
            && t.recv == s.recv && t.bidi == s.bidi && t.local == s.local
            && t.send.off == s.send.off && t.send.len == s.send.len && t.send.maxData == s.send.maxData
            && t.send.finOff == s.send.finOff && t.send.acked == s.send.acked
            && (if id in ids then t.send.shutdown && t.send.data == [] else t.send == s.send)
    ensures id in ids ==> id !in after.writable
    ensures id in listed ==> id in after.canceled && id in after.canceledDepend
    ensures id !in ids && id !in listed ==>
              && (id in after.writable <==> id in before.writable)
              && (id in after.canceled <==> id in before.canceled)
              && (id in after.canceledDepend <==> id in before.canceledDepend)
  {
  }

  /** The block at `i` is to be dropped but cannot be: its sending side was shut down
      before, or it is queued again further back and is dropped there first. */
  predicate FailsAt(queue: seq<nat>, streams: map<nat, Stream>, drop: nat -> bool, i: nat)
    requires i < |queue|
  {
    && queue[i] in streams && drop(i)
    && (streams[queue[i]].send.shutdown || queue[i] in Dropped(queue, drop, i + 1))
  }

  predicate AllKnown(queue: seq<nat>, streams: map<nat, Stream>) {
    forall i :: 0 <= i < |queue| ==> queue[i] in streams
  }

  /** The loop over the queue from its back, before index `i` is visited: the part below
      `i` is untouched, the part from `i` on holds the blocks offered so far. */
  ghost predicate Midway(queue: seq<nat>, board: Board, drop: nat -> bool, i: nat,
                         flushable: seq<nat>, after: Board, offered: seq<nat>, asked: seq<nat>) {
    && i <= |flushable| && i <= |queue|
    && flushable[..i] == queue[..i]
    && asked == Reversed(queue[i..]) && offered == Offered(queue, drop, i)
    && multiset(flushable[i..]) == multiset(offered)
    && Canceled(board, Dropped(queue, drop, i), Dropped(queue, drop, i), after)
  }

  /** The loop gave up at index `at`, the last one that fails: what lies behind it is dealt
      with, the block itself is announced as canceled and stays queued. */
  ghost predicate GaveUp(queue: seq<nat>, board: Board, drop: nat -> bool, at: nat,
                         flushable: seq<nat>, after: Board, asked: seq<nat>) {
    && at < |queue| && at < |flushable|
    && FailsAt(queue, board.streams, drop, at)
    && (forall k :: at < k < |queue| ==> !FailsAt(queue, board.streams, drop, k))
    && asked == Reversed(queue[at..])
    && flushable[..at + 1] == queue[..at + 1]
    && multiset(flushable[at + 1..]) == multiset(Offered(queue, drop, at + 1))
    && Canceled(board, Dropped(queue, drop, at + 1), Dropped(queue, drop, at + 1) + {queue[at]}, after)
  }

  lemma DroppedStep(queue: seq<nat>, drop: nat -> bool, i: nat)
    requires i < |queue|
    ensures Dropped(queue, drop, i) == Dropped(queue, drop, i + 1) + if drop(i) then {queue[i]} else {}
  {
  }

  lemma DroppedAre(queue: seq<nat>, drop: nat -> bool)
    ensures forall id :: id in Dropped(queue, drop, 0) <==> exists i :: 0 <= i < |queue| && drop(i) && queue[i] == id
  {
  }

  lemma AskedStep(queue: seq<nat>, i: nat)
    requires i < |queue|
    ensures Reversed(queue[i + 1..]) + [queue[i]] == Reversed(queue[i..])
  {
    assert queue[i..][1..] == queue[i + 1..];
  }

  lemma QueueStep(queue: seq<nat>, flushable: seq<nat>, i: nat)
    requires i < |queue| && i < |flushable| && flushable[..i + 1] == queue[..i + 1]
    ensures flushable[i] == queue[i] && flushable[..i] == queue[..i]
    ensures multiset(flushable[i..]) == multiset{queue[i]} + multiset(flushable[i + 1..])
  {
    assert flushable[i] == flushable[..i + 1][i] == queue[..i + 1][i];
    assert flushable[i..] == [flushable[i]] + flushable[i + 1..];
    assert flushable[..i] == flushable[..i + 1][..i] && queue[..i] == queue[..i + 1][..i];
  }

  lemma KeepStep(queue: seq<nat>, board: Board, drop: nat -> bool, i: nat,
                 flushable: seq<nat>, after: Board, offered: seq<nat>, asked: seq<nat>)
    requires i < |queue| && Midway(queue, board, drop, i + 1, flushable, after, offered, asked)
    requires !drop(i)
    ensures Midway(queue, board, drop, i, flushable, after, offered + [queue[i]], asked + [queue[i]])
  {
    hide Canceled, Reversed, Dropped;
    AskedStep(queue, i);
    DroppedStep(queue, drop, i);
    QueueStep(queue, flushable, i);
    assert Dropped(queue, drop, i) == Dropped(queue, drop, i + 1);
  }

  lemma CancelOne(board: Board, ids: set<nat>, after: Board, id: nat)
    requires Canceled(board, ids, ids, after) && id in board.streams
    ensures var (r, next) := CancelBlock(after, id);
            if id in ids || board.streams[id].send.shutdown then
              r == Err(Done) && Canceled(board, ids, ids + {id}, next)
            else r == Ok(()) && Canceled(board, ids + {id}, ids + {id}, next)
  {
  }

  lemma DropStep(queue: seq<nat>, board: Board, drop: nat -> bool, i: nat,
                 flushable: seq<nat>, after: Board, offered: seq<nat>, asked: seq<nat>)
    requires i < |queue| && Midway(queue, board, drop, i + 1, flushable, after, offered, asked)
    requires drop(i) && queue[i] in board.streams && queue[i] in after.streams
    requires !FailsAt(queue, board.streams, drop, i)
    ensures var (r, next) := CancelBlock(after, queue[i]);
            r.Ok? && Midway(queue, board, drop, i, SwapRemoveBack(flushable, i), next, offered, asked + [queue[i]])
  {
    hide Canceled, Reversed, Dropped, SwapRemoveBack, CancelBlock;
    AskedStep(queue, i);
    DroppedStep(queue, drop, i);
    QueueStep(queue, flushable, i);
    SwapRemoveBackParts(flushable, i);
    CancelOne(board, Dropped(queue, drop, i + 1), after, queue[i]);
  }

  lemma FailStep(queue: seq<nat>, board: Board, drop: nat -> bool, i: nat,
                 flushable: seq<nat>, after: Board, offered: seq<nat>, asked: seq<nat>)
    requires i < |queue| && queue[i] in after.streams
    requires Midway(queue, board, drop, i + 1, flushable, after, offered, asked) && i < |flushable|
    requires FailsAt(queue, board.streams, drop, i)
    requires forall k :: i < k < |queue| ==> !FailsAt(queue, board.streams, drop, k)
    ensures var (r, next) := CancelBlock(after, queue[i]);
            r == Err(Done) && GaveUp(queue, board, drop, i, flushable, next, asked + [queue[i]])
  {
    hide Canceled, Reversed, Offered, Dropped, CancelBlock;
    AskedStep(queue, i);
    CancelOne(board, Dropped(queue, drop, i + 1), after, queue[i]);
  }

  lemma NothingAsked(queue: seq<nat>, board: Board, drop: nat -> bool)
    ensures Midway(queue, board, drop, |queue|, queue, board, [], [])
  {
    assert queue[|queue|..] == [];
  }

  /** How the scheduling step ends: a panic, an error, or a result. */
  datatype Outcome<+T> = Panicked | Failed(error: Error) | Finished(value: T)

  /** The first loop, which looks up every queued block and panics at one that is gone. */
  method LookUp(queue: seq<nat>, streams: map<nat, Stream>) returns (known: bool)
    ensures known <==> AllKnown(queue, streams)
  {
    var i: nat := |queue|;
    while i > 0
      invariant i <= |queue| && forall k :: i <= k < |queue| ==> queue[k] in streams
    {
      i := i - 1;
      if queue[i] !in streams {
        return false;
      }
    }
    known := true;
  }

  /** Both loops over the queue from its back. The first looks up every block and panics at one
      that was collected. The second asks about every entry once, cancels the blocks to drop, and
      offers the others, until one cannot be dropped. `asked` is the order of the questions and
      `at` where the loop gave up. */
  method DropBlocks(queue: seq<nat>, board: Board, drop: nat -> bool)
    returns (r: Outcome<seq<nat>>, flushable: seq<nat>, after: Board, ghost asked: seq<nat>, ghost at: nat)
    ensures r.Panicked? <==> exists i :: 0 <= i < |queue| && queue[i] !in board.streams
    ensures r.Panicked? ==> flushable == queue && after == board && asked == []
    ensures r.Failed? <==> !r.Panicked? && exists i :: 0 <= i < |queue| && FailsAt(queue, board.streams, drop, i)
    ensures r.Failed? ==> r.error == Done && GaveUp(queue, board, drop, at, flushable, after, asked)
    ensures after.streams.Keys == board.streams.Keys
    ensures r.Finished? ==> Midway(queue, board, drop, 0, flushable, after, r.value, asked)
  {
    hide Offered, Reversed, SwapRemoveBack, Dropped, FailsAt, CancelBlock;
    flushable, after, asked, at := queue, board, [], 0;
    var known := LookUp(queue, board.streams);
    if !known {
      return Panicked, flushable, after, asked, at;
    }
    var offered: seq<nat> := [];
    NothingAsked(queue, board, drop);
    var i: nat := |queue|;
    while i > 0
      invariant i <= |queue|
      invariant Midway(queue, board, drop, i, flushable, after, offered, asked)
      invariant forall k :: i <= k < |queue| ==> !FailsAt(queue, board.streams, drop, k)
    {
      i := i - 1;
      var id := flushable[i];
      assert id == flushable[..i + 1][i] == queue[..i + 1][i];
      if drop(i) {
        if FailsAt(queue, board.streams, drop, i) {
          FailStep(queue, board, drop, i, flushable, after, offered, asked);
        } else {
          DropStep(queue, board, drop, i, flushable, after, offered, asked);
        }
        var (outcome, next) := CancelBlock(after, id);
        after := next;
        asked := asked + [id];
        if outcome.Err? {
          at := i;
          r := Failed(outcome.error);
          return;
        }
        flushable := SwapRemoveBack(flushable, i);
      } else {
        NotDropped(queue, board.streams, drop, i);
        KeepStep(queue, board, drop, i, flushable, after, offered, asked);
        offered, asked := offered + [id], asked + [id];
      }
    }
    r := Finished(offered);
  }

  /** What the loop has done when it went over the whole queue. */
  lemma AllAsked(queue: seq<nat>, board: Board, drop: nat -> bool,
                 flushable: seq<nat>, after: Board, offered: seq<nat>, asked: seq<nat>)
    requires Midway(queue, board, drop, 0, flushable, after, offered, asked)
    ensures asked == Reversed(queue) && offered == Offered(queue, drop, 0)
    ensures multiset(flushable) == multiset(offered)
    ensures Canceled(board, Dropped(queue, drop, 0), Dropped(queue, drop, 0), after)
  {
    assert queue[0..] == queue && flushable[0..] == flushable;
  }

  lemma NotDropped(queue: seq<nat>, streams: map<nat, Stream>, drop: nat -> bool, i: nat)
    requires i < |queue| && !drop(i)
    ensures !FailsAt(queue, streams, drop, i)
  {
  }

  /** After the loop gave up, a later call fails at the same entry whenever the scheduler wants
      to drop it, whatever its other answers are. */
  lemma FailsAgain(queue: seq<nat>, board: Board, drop: nat -> bool, at: nat,
                   flushable: seq<nat>, after: Board, asked: seq<nat>, later: nat -> bool)
    requires GaveUp(queue, board, drop, at, flushable, after, asked) && later(at)
    ensures flushable[at] == queue[at] && FailsAt(flushable, after.streams, later, at)
  {
    assert flushable[at] == flushable[..at + 1][at] == queue[..at + 1][at];
  }

  // ---------- conservation ----------

  /** The entries dropped by the walk down to index `i`. */
  function DroppedList(queue: seq<nat>, drop: nat -> bool, i: nat): seq<nat>
    decreases |queue| - i
  {
    if i >= |queue| then [] else DroppedList(queue, drop, i + 1) + if drop(i) then [queue[i]] else []
  }

  lemma {:induction false} WalkParts(queue: seq<nat>, drop: nat -> bool, i: nat)
    requires i <= |queue|
    ensures multiset(queue[i..]) == multiset(Offered(queue, drop, i)) + multiset(DroppedList(queue, drop, i))
    decreases |queue| - i
  {
    if i < |queue| {
      WalkParts(queue, drop, i + 1);
      var offered, dropped := Offered(queue, drop, i + 1), DroppedList(queue, drop, i + 1);
      assert queue[i..] == [queue[i]] + queue[i + 1..];
      assert Offered(queue, drop, i) == if drop(i) then offered else offered + [queue[i]];
      assert DroppedList(queue, drop, i) == if drop(i) then dropped + [queue[i]] else dropped;
      hide Offered, DroppedList;
    }
  }

  /** Entry `k` is kept, and holds `id`. */
  predicate KeptAt(queue: seq<nat>, drop: nat -> bool, k: nat, id: nat)
    requires k < |queue|
  {
    queue[k] == id && !drop(k)
  }

  lemma {:induction false} OfferedAre(queue: seq<nat>, drop: nat -> bool, i: nat, id: nat)
    requires i <= |queue|
    ensures id in Offered(queue, drop, i) <==> exists k :: i <= k < |queue| && KeptAt(queue, drop, k, id)
    decreases |queue| - i
  {
    if i < |queue| {
      OfferedAre(queue, drop, i + 1, id);
      assert (exists k :: i <= k < |queue| && KeptAt(queue, drop, k, id)) <==>
               KeptAt(queue, drop, i, id) || exists k :: i + 1 <= k < |queue| && KeptAt(queue, drop, k, id);
    }
  }

  /** The order of the offer: an entry that is kept comes right after all kept ones behind it. */
  lemma {:induction false} OfferedAt(queue: seq<nat>, drop: nat -> bool, i: nat, k: nat)
    requires i <= k < |queue| && !drop(k)
    ensures var p := |Offered(queue, drop, k + 1)|;
            p < |Offered(queue, drop, i)| && Offered(queue, drop, i)[p] == queue[k]
    decreases k - i
  {
    if i < k {
      OfferedAt(queue, drop, i + 1, k);
    }
  }

  lemma {:induction false} ReversedAt(s: seq<nat>, k: nat)
    requires k < |s|
    ensures |Reversed(s)| == |s| && Reversed(s)[k] == s[|s| - 1 - k]
  {
    if |s| > 1 {
      ReversedAt(s[1..], if k < |s| - 1 then k else 0);
    }
  }

  /** No entry is dropped that is dropped again further back. */
  ghost predicate DroppedOnce(queue: seq<nat>, drop: nat -> bool, i: nat) {
    forall k :: i <= k < |queue| && drop(k) ==> queue[k] !in Dropped(queue, drop, k + 1)
  }

  lemma ListOnce(list: seq<nat>, s: set<nat>, id: nat)
    requires forall x :: x in list <==> x in s
    ensures multiset(list + [id]) == multiset(s + {id}) <==> multiset(list) == multiset(s) && id !in s
    ensures forall x :: x in list + [id] <==> x in s + {id}
  {
    var a, b := multiset(list), multiset(s);
    assert multiset(list + [id]) == a + multiset{id};
    if id in s {
      assert a[id] >= 1;
      assert (a + multiset{id})[id] >= 2 && multiset(s + {id})[id] == 1;
    } else {
      assert multiset(s + {id}) == b + multiset{id};
      if a + multiset{id} == b + multiset{id} {
        assert a == a + multiset{id} - multiset{id} == b + multiset{id} - multiset{id} == b;
      }
    }
  }

  lemma {:induction false} DroppedBag(queue: seq<nat>, drop: nat -> bool, i: nat)
    requires i <= |queue|
    ensures var list, s := DroppedList(queue, drop, i), Dropped(queue, drop, i);
            && (forall id :: id in list <==> id in s)
            && (multiset(list) == multiset(s) <==> DroppedOnce(queue, drop, i))
    decreases |queue| - i
  {
    if i == |queue| {
      assert Dropped(queue, drop, i) == {};
    } else {
      DroppedBag(queue, drop, i + 1);
      DroppedStep(queue, drop, i);
      OnceStep(queue, drop, i);
      var rest := DroppedList(queue, drop, i + 1);
      assert DroppedList(queue, drop, i) == if drop(i) then rest + [queue[i]] else rest;
      hide Dropped, DroppedOnce, DroppedList;
      if drop(i) {
        ListOnce(rest, Dropped(queue, drop, i + 1), queue[i]);
      } else {
        assert Dropped(queue, drop, i) == Dropped(queue, drop, i + 1);
      }
    }
  }

  lemma OnceStep(queue: seq<nat>, drop: nat -> bool, i: nat)
    requires i < |queue|
    ensures DroppedOnce(queue, drop, i) <==>
              DroppedOnce(queue, drop, i + 1) && (drop(i) ==> queue[i] !in Dropped(queue, drop, i + 1))
  {
    hide Dropped;
  }

  /** Nothing is lost or duplicated, however often an ID is queued: the entries split into
      those offered to the scheduler and those dropped. The latter are the blocks dropped, each
      once, exactly when none is dropped again further back; so they are if no call fails. */
  lemma QueueConserved(queue: seq<nat>, streams: map<nat, Stream>, drop: nat -> bool)
    ensures multiset(queue) == multiset(Offered(queue, drop, 0)) + multiset(DroppedList(queue, drop, 0))
    ensures forall id :: id in Offered(queue, drop, 0) <==> exists k :: 0 <= k < |queue| && KeptAt(queue, drop, k, id)
    ensures multiset(DroppedList(queue, drop, 0)) == multiset(Dropped(queue, drop, 0)) <==> DroppedOnce(queue, drop, 0)
    ensures AllKnown(queue, streams) && (forall i :: 0 <= i < |queue| ==> !FailsAt(queue, streams, drop, i)) ==>
              DroppedOnce(queue, drop, 0)
  {
    hide Offered, DroppedList, Dropped, KeptAt;
    WalkParts(queue, drop, 0);
    assert queue[0..] == queue;
    DroppedBag(queue, drop, 0);
    forall id
      ensures id in Offered(queue, drop, 0) <==> exists k :: 0 <= k < |queue| && KeptAt(queue, drop, k, id)
    {
      OfferedAre(queue, drop, 0, id);
    }
    if AllKnown(queue, streams) && forall i :: 0 <= i < |queue| ==> !FailsAt(queue, streams, drop, i) {
      forall k | 0 <= k < |queue| && drop(k)
        ensures queue[k] !in Dropped(queue, drop, k + 1)
      {
        assert !FailsAt(queue, streams, drop, k);
      }
    }
  }

  // ---------- how a queue comes to fail ----------

  predicate IsFlushable(s: Send) {
    s.data != [] && s.LowOff() < s.maxData
  }

  /** A stream is flushable exactly when the next frame of it carries data, whatever room of at
      least a byte the packet has. */
  lemma FlushableIff(s: Send, max: nat, out: RangeBuf, post: Send)
    requires s.Valid() && max > 0 && Taken(s, max, out, post)
    ensures IsFlushable(s) <==> out.data != []
  {
    if out.data != [] {
      assert Stores(out, out.off, out.At(out.off));
      assert Holds(s.data, out.off, out.At(out.off));
    }
  }

  /** `stream_send`: the write, and the queue after it. */
  function AfterSend(queue: seq<nat>, id: nat, s: Send, data: seq<byte>, fin: bool): Result<(seq<nat>, Send)>
    requires s.off <= s.maxData
  {
    var (n, post) :- Written(s, data, fin);
    var push := (IsFlushable(post) || (data == [] && fin)) && !IsFlushable(s);
    Ok((if push then queue + [id] else queue, post))
  }

  /** A stream that was ended before anything was written. */
  function Ended(window: nat): Send {
    SendSpec.Fresh(window).(finOff := Some(0))
  }

  /** Two empty writes that end a stream queue it twice; dropping both entries then fails,
      although nothing was shut down before. */
  lemma EmptyFinQueuedTwice(window: nat, id: nat, recv: Recv, drop: nat -> bool)
    requires drop(0) && drop(1)
    ensures AfterSend([], id, SendSpec.Fresh(window), [], true) == Ok(([id], Ended(window)))
    ensures AfterSend([id], id, Ended(window), [], true) == Ok(([id, id], Ended(window)))
    ensures !Ended(window).shutdown && FailsAt([id, id], map[id := Stream(recv, Ended(window), true, true)], drop, 0)
  {
    assert [] + [id] == [id];
    assert [id] + [id] == [id, id];
    assert [id, id][1] in Dropped([id, id], drop, 1);
  }

  /** A unidirectional stream of this endpoint that is queued twice that way is collected while
      it is still queued: the first frame takes one entry out, and its acknowledgement completes
      the stream. The next step panics. */
  lemma CollectedWhileQueued(window: nat, id: nat, max: nat, t: Table, recv: Recv)
    requires !IsBidi(id) && id in t.streams
    requires t.streams[id] == Stream(recv, Ended(window).(acked := Inserted([], Range(0, 0))), false, true)
    ensures SwapRemoveFront([id, id], 0) == [id]
    ensures Taken(Ended(window), max, RangeBuf([], 0, true), Ended(window))
    ensures t.streams[id].IsComplete()
    ensures !AllKnown([id], Collect(t, id, true).streams)
  {
    assert RangeBuf([], 0, true).MaxOff() == 0;
    assert Inserted([], Range(0, 0)) == [Range(0, 0)];
    assert [id][0] !in Collect(t, id, true).streams;
  }

  /** A block with data is queued; `stream_shutdown` stops it and leaves the queue alone, so
      dropping the block fails. */
  lemma ShutDownWhileQueued(window: nat, id: nat, b: byte, recv: Recv, drop: nat -> bool)
    requires window > 0 && drop(0)
    ensures AfterSend([], id, SendSpec.Fresh(window), [b], false).Ok?
    ensures var (q, s) := AfterSend([], id, SendSpec.Fresh(window), [b], false).value;
            q == [id] && FailsAt(q, map[id := Stopped(Stream(recv, s, true, true))], drop, 0)
  {
    var start := SendSpec.Fresh(window);
    var (n, post) := Written(start, [b], false).value;
    assert [b][..1] == [b];
    assert SendSpec.Pieces([b], 0, false) == [RangeBuf([b], 0, false)];
    assert post.data == [RangeBuf([b], 0, false)];
    assert [] + [id] == [id];
  }

  /** The search for the selected block; one that is not queued changes nothing. */
  method TakeOut(queue: seq<nat>, best: nat) returns (rest: seq<nat>)
    ensures multiset(rest) == multiset(queue) - multiset{best}
    ensures best !in queue ==> rest == queue
    ensures best in queue ==>
              exists i :: 0 <= i < |queue| && queue[i] == best && best !in queue[..i] && rest == SwapRemoveFront(queue, i)
  {
    var i := 0;
    while i < |queue|
      invariant 0 <= i <= |queue| && best !in queue[..i]
    {
      if queue[i] == best {
        SwapRemoveFrontBag(queue, i);
        return SwapRemoveFront(queue, i);
      }
      i := i + 1;
    }
    assert queue[..i] == queue;
    rest := queue;
  }

  class StreamMap {
    var streams: map<nat, Stream>
    var collected: set<nat>
    var bidi: Quota
    var uni: Quota
    var flushable: seq<nat>
    var writable: set<nat>
    var canceled: set<nat>
    var canceledDepend: set<nat>

    function Streams(): Table
      reads this
    {
      Table(streams, collected, bidi, uni, writable)
    }

    function Blocks(): Board
      reads this
    {
      Board(streams, canceled, canceledDepend, writable)
    }

    constructor (maxBidi: nat, maxUni: nat)
      ensures Streams() == Start(maxBidi, maxUni) && flushable == []
    {
      streams, collected := map[], {};
      bidi, uni := Quota(0, 0, maxBidi, maxBidi, 0), Quota(0, 0, maxUni, maxUni, 0);
      flushable, writable, canceled, canceledDepend := [], {}, {}, {};
    }

    method Open(id: nat, local: bool, isServer: bool, ours: Windows, theirs: Windows) returns (r: Result<()>)
      modifies `streams, `bidi, `uni, `writable
      ensures match GetOrCreate(old(Streams()), id, local, isServer, ours, theirs)
              case Ok(t) => r == Ok(()) && Streams() == t
              case Err(e) => r == Err(e) && Streams() == old(Streams())
    {
      if id !in streams {
        if local != IsLocal(id, isServer) {
          return Err(InvalidStreamState);
        }
        if id in collected {
          return Err(Done);
        }
        var q := if IsBidi(id) then bidi else uni;
        if IsLocal(id, isServer) {
          if q.localOpened >= q.peerMax {
            return Err(StreamLimit);
          }
          q := q.(localOpened := q.localOpened + 1);
        } else {
          if q.peerOpened >= q.localMax {
            return Err(StreamLimit);
          }
          q := q.(peerOpened := q.peerOpened + 1);
        }
        if IsBidi(id) {
          bidi := q;
        } else {
          uni := q;
        }
        streams := streams[id := NewStream(id, local, ours, theirs)];
      }
      if streams[id].IsWritable() {
        writable := writable + {id};
      }
      r := Ok(());
    }

    method CollectStream(id: nat, local: bool)
      modifies `streams, `collected, `bidi, `uni
      ensures Streams() == Collect(old(Streams()), id, local)
    {
      if !local {
        if IsBidi(id) {
          bidi := bidi.(localMaxNext := SaturatingAdd(bidi.localMaxNext, 1));
        } else {
          uni := uni.(localMaxNext := SaturatingAdd(uni.localMaxNext, 1));
        }
      }
      streams := streams - {id};
      collected := collected + {id};
    }

    /** Whether a larger stream limit is to be announced: it is larger, and it is due once the
        limit is used up unless it is below two. */
    method ShouldUpdateMaxStreams(bidirectional: bool) returns (b: bool)
      requires Streams().Of(bidirectional).peerOpened <= Streams().Of(bidirectional).localMax
      ensures var q := Streams().Of(bidirectional);
              && (b <==> UpdateDue(q.peerOpened, q.localMax, q.localMaxNext))
              && (b && q.localMax <= q.localMaxNext ==> q.localMax < q.localMaxNext)
              && (q.peerOpened == q.localMax < q.localMaxNext && 2 <= q.localMaxNext ==> b)
    {
      var q := Streams().Of(bidirectional);
      var room: nat := q.localMax - q.peerOpened;
      b := q.localMaxNext != q.localMax && q.localMaxNext / 2 > room;
    }

    /** The scheduling step. It panics exactly when a queued stream was collected, and then
        nothing has changed. Otherwise it fails exactly when a block that is to be dropped was
        shut down before or is dropped twice; then that block is announced as canceled and
        stays queued. Otherwise the blocks to drop are canceled, the others are offered to the
        scheduler from the back of the queue to its front, and the one it selects leaves
        the queue. */
    method PeekFlushable(drop: nat -> bool, select: seq<nat> -> nat)
      returns (r: Outcome<Option<nat>>, ghost asked: seq<nat>, ghost at: nat)
      modifies `flushable, `streams, `canceled, `canceledDepend, `writable
      ensures r.Panicked? <==> exists i :: 0 <= i < |old(flushable)| && old(flushable)[i] !in old(streams)
      ensures r.Panicked? ==> flushable == old(flushable) && Blocks() == old(Blocks())
      ensures r.Failed? <==>
                && !r.Panicked?
                && exists i :: 0 <= i < |old(flushable)| && FailsAt(old(flushable), old(streams), drop, i)
      ensures r.Failed? ==> r.error == Done && GaveUp(old(flushable), old(Blocks()), drop, at, flushable, Blocks(), asked)
      ensures r.Finished? ==>
                var offered := Offered(old(flushable), drop, 0);
                && asked == Reversed(old(flushable))
                && r.value == (if offered == [] then None else Some(select(offered)))
                && multiset(flushable) ==
                     multiset(offered) - (if offered == [] then multiset{} else multiset{select(offered)})
                && Canceled(old(Blocks()), Dropped(old(flushable), drop, 0), Dropped(old(flushable), drop, 0), Blocks())
      ensures r.Finished? ==>
                && streams.Keys == old(streams).Keys
                && forall id :: id in old(streams) ==>
                     var s, t := old(streams)[id], streams[id];
                     && t.recv == s.recv && t.bidi == s.bidi && t.local == s.local
                     && t.send.off == s.send.off && t.send.len == s.send.len && t.send.maxData == s.send.maxData
                     && t.send.finOff == s.send.finOff && t.send.acked == s.send.acked
                     && (if exists i :: 0 <= i < |old(flushable)| && drop(i) && old(flushable)[i] == id then
                           t.send.shutdown && t.send.data == [] && id in canceled && id !in writable
                         else
                           t.send == s.send)
    {
      hide Midway, GaveUp, Canceled, Reversed, Offered, Dropped, FailsAt;
      asked, at := [], 0;
      if flushable == [] {
        NothingAsked([], Blocks(), drop);
        AllAsked([], Blocks(), drop, [], Blocks(), [], []);
        return Finished(None), asked, at;
      }
      ghost var queue, blocks := flushable, Blocks();
      var outcome, rest, board;
      outcome, rest, board, asked, at := DropBlocks(flushable, Blocks(), drop);
      if outcome.Panicked? {
        return Panicked, asked, at;
      }
      streams, canceled, canceledDepend, writable := board.streams, board.canceled, board.canceledDepend, board.writable;
      flushable := rest;
      if outcome.Failed? {
        return Failed(outcome.error), asked, at;
      }
      var offered := outcome.value;
      AllAsked(queue, blocks, drop, rest, board, offered, asked);
      DroppedAre(queue, drop);
      forall id | id in blocks.streams {
        CanceledMeans(blocks, Dropped(queue, drop, 0), Dropped(queue, drop, 0), board, id);
      }
      if offered == [] {
        return Finished(None), asked, at;
      }
      var best := select(offered);
      flushable := TakeOut(flushable, best);
      r := Finished(Some(best));
    }
  }
}
