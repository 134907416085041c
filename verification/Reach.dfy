/** What an acknowledgement is worth: if the peer acknowledges only frames that arrived, and no
    push loses bytes, every acknowledged byte is at the receiver. */
module Reach {
  import opened Prelude
  import opened Chunks
  import opened ChunkHeap
  import opened RangeSets
  import opened RecvSpec
  import opened RecvCompleteness
  import opened RecvExactness
  import opened SendSpec
  import opened Delivery
  import opened StreamEnds

  /** The receiver has handed out byte `x`, buffers it, or does not want it any more. */
  ghost predicate Reached(s: Recv, x: int) {
    s.drain || x < s.off || Has(s.data, x)
  }

  ghost predicate FramesReached(received: set<RangeBuf>, s: Recv) {
    forall b, x :: b in received && b.Covers(x) ==> Reached(s, x)
  }

  ghost predicate AckedReached(acked: seq<Range>, s: Recv) {
    forall x :: Member(acked, x) ==> Reached(s, x)
  }

  ghost predicate ReachInv(w: World) {
    FramesReached(w.received, w.recv) && AckedReached(w.send.acked, w.recv)
  }

  /** A push meets no two chunks that make it lose bytes. */
  ghost predicate Lossless(w: World, e: Event) {
    e.Receive? && !Ignored(w.recv, e.frame) ==> !Exposed(w.recv.data, Max(w.recv.off, e.frame.off), e.frame)
  }

  /** What was reached stays reached. */
  ghost predicate Monotone(s: Recv, t: Recv) {
    forall x :: Reached(s, x) ==> Reached(t, x)
  }

  lemma PushReaches(s: Recv, b: RangeBuf, orders: seq<seq<RangeBuf>>, t: Recv)
    requires s.Valid() && PushError(s, b).None? && Pushed(s, b, orders, Ok(()), t)
    requires !Ignored(s, b) ==> !Exposed(s.data, Max(s.off, b.off), b)
    ensures Monotone(s, t)
    ensures forall x :: b.Covers(x) ==> Reached(t, x)
  {
    hide Exposed, ValidChunks;
    PushChanges(s, b, orders, Ok(()), t);
    assert forall x :: Has(s.data, x) ==> Has(t.data, x);
    if !Ignored(s, b) {
      CompleteInEveryOrderIff(s, b);
      assert Complete(t.data, s.off, b);
    }
  }

  lemma ReadReaches(s: Recv, cap: nat, out: seq<byte>, t: Recv)
    requires s.Valid() && Popped(s, cap, out, t)
    ensures Monotone(s, t)
  {
    forall x | Has(s.data, x)
      ensures x < t.off || Has(t.data, x)
    {
      HasIsHolds(s.data, x);
      HasIsHolds(t.data, x);
    }
  }

  lemma MonotoneKeeps(received: set<RangeBuf>, acked: seq<Range>, s: Recv, t: Recv)
    requires FramesReached(received, s) && AckedReached(acked, s) && Monotone(s, t)
    ensures FramesReached(received, t) && AckedReached(acked, t)
  {
  }

  lemma AckReaches(w: World, i: nat, w': World)
    requires Inv(w) && Does(w, Acked(i), w') && w.flight[i] in w.received && ReachInv(w)
    ensures ReachInv(w')
  {
    var f := w.flight[i];
    forall x | Member(w'.send.acked, x)
      ensures Reached(w'.recv, x)
    {
      InsertedIsUnion(w.send.acked, Range(f.off, f.MaxOff()), x);
    }
  }

  lemma ReceiveReaches(w: World, b: RangeBuf, orders: seq<seq<RangeBuf>>, r: Result<()>, w': World)
    requires Inv(w) && Does(w, Receive(b, orders, r), w') && ReachInv(w) && Lossless(w, Receive(b, orders, r))
    ensures ReachInv(w')
  {
    hide Inv, Pushed, PushError, Reached, Exposed, Ignored, Monotone;
    assert w.recv.Valid() && r == Ok(()) && PushError(w.recv, b).None? by {
      ReceiveKeeps(w, b, orders, r, w');
      ReceiverAccepts(w, b);
      RecvValid(w);
    }
    PushReaches(w.recv, b, orders, w'.recv);
    MonotoneKeeps(w.received, w.send.acked, w.recv, w'.recv);
  }

  /** A push that can lose bytes loses one that the receiver wants. */
  lemma ExposedMisses(s: Recv, b: RangeBuf) returns (orders: seq<seq<RangeBuf>>, t: Recv)
    requires s.Valid() && PushError(s, b).None? && !Ignored(s, b) && Exposed(s.data, Max(s.off, b.off), b)
    ensures Pushed(s, b, orders, Ok(()), t)
    ensures exists x :: b.Covers(x) && !Reached(t, x)
  {
    hide Exposed, ValidChunks, Filled;
    CompleteInEveryOrderIff(s, b);
    orders, t :| Pushed(s, b, orders, Ok(()), t) && !Complete(t.data, s.off, b);
    var x :| Max(s.off, b.off) <= x < b.MaxOff() && !Has(t.data, x);
    assert b.Covers(x) && !Reached(t, x);
  }

  /** One arrival keeps every frame that arrived at the receiver, in every iteration order of
      the heap, exactly when its push is lossless. */
  lemma ArrivalReachesIff(w: World, b: RangeBuf)
    requires Inv(w) && ReachInv(w) && b in w.net
    ensures (forall orders, r, w' :: Does(w, Receive(b, orders, r), w') ==> FramesReached(w'.received, w'.recv))
            <==> Lossless(w, Receive(b, [], Ok(())))
  {
    hide Inv, Pushed, PushError, Reached, Exposed, Ignored, FramesReached, AckedReached;
    assert w.recv.Valid() && w.send.off <= w.send.maxData && PushError(w.recv, b).None? by {
      ReceiverAccepts(w, b);
      RecvValid(w);
      SendBound(w);
    }
    if Lossless(w, Receive(b, [], Ok(()))) {
      forall orders, r, w' | Does(w, Receive(b, orders, r), w')
        ensures FramesReached(w'.received, w'.recv)
      {
        ReceiveReaches(w, b, orders, r, w');
      }
    } else {
      var orders, t := ExposedMisses(w.recv, b);
      var w' := w.(recv := t, received := w.received + {b});
      assert Does(w, Receive(b, orders, Ok(())), w');
      MissingNotReached(b, w'.received, t);
    }
  }

  lemma MissingNotReached(b: RangeBuf, received: set<RangeBuf>, t: Recv)
    requires b in received && exists x :: b.Covers(x) && !Reached(t, x)
    ensures !FramesReached(received, t)
  {
  }

  lemma SendBound(w: World)
    requires Inv(w)
    ensures w.send.off <= w.send.maxData
  {
  }

  /** The other steps acknowledge nothing and take nothing from the receiver. */
  lemma OtherSteps(w: World, e: Event, w': World)
    requires Inv(w) && Does(w, e, w') && !e.Acked? && !e.Receive?
    ensures w'.send.acked == w.send.acked && w'.received == w.received && Monotone(w.recv, w'.recv)
  {
    hide Monotone, Taken, Ledger, Faithful;
    match e
    case Write(data, fin) =>
      if Written(w.send, data, fin).Ok? {
        WriteAppends(w.send, data, fin);
      }
      Same(w.recv);
    case Transmit(max, out) =>
      TakenKeepsAcked(w.send, max, out, w'.send);
      Same(w.recv);
    case Read(cap, out) => ReadReaches(w.recv, cap, out, w'.recv);
    case ReceiveReset(size) => Drained(w.recv, w'.recv);
    case StopReading => Drained(w.recv, w'.recv);
    case IssueLimit => Drained(w.recv, w'.recv);
    case _ => Same(w.recv);
  }

  lemma TakenKeepsAcked(s: Send, max: nat, out: RangeBuf, t: Send)
    requires Taken(s, max, out, t)
    ensures t.acked == s.acked
  {
  }

  lemma Same(s: Recv)
    ensures Monotone(s, s)
  {
  }

  lemma Drained(s: Recv, t: Recv)
    requires t.drain || (t.data == s.data && t.off == s.off && t.drain == s.drain)
    ensures Monotone(s, t)
  {
  }

  lemma StepReaches(w: World, e: Event, w': World)
    requires Inv(w) && Does(w, e, w') && ReachInv(w) && Honest(w, e) && Lossless(w, e)
    ensures ReachInv(w')
  {
    hide Inv, FramesReached, AckedReached, Exposed, Inserted, Pushed, Popped, Taken, Queued, Written, Without;
    match e
    case Acked(i) => AckReaches(w, i, w');
    case Receive(b, orders, r) => ReceiveReaches(w, b, orders, r, w');
    case _ =>
      OtherSteps(w, e, w');
      MonotoneKeeps(w.received, w.send.acked, w.recv, w'.recv);
  }

  /** In every run with honest acknowledgements and lossless pushes, every acknowledged byte
      was handed out, is buffered, or is not wanted any more. */
  lemma {:induction false} AckedIsReached(ws: seq<World>, es: seq<Event>, sendWindow: nat, recvWindow: nat, k: nat)
    requires Run(ws, es, sendWindow, recvWindow) && sendWindow <= recvWindow <= U64_MAX && k < |ws|
    requires forall j :: 0 <= j < k ==> Honest(ws[j], es[j]) && Lossless(ws[j], es[j])
    ensures ReachInv(ws[k])
  {
    hide Inv, Does, Honest, Lossless;
    if k == 0 {
      NothingAcked(sendWindow, recvWindow);
    } else {
      AckedIsReached(ws, es, sendWindow, recvWindow, k - 1);
      RunInv(ws, es, sendWindow, recvWindow, k - 1);
      StepReaches(ws[k - 1], es[k - 1], ws[k]);
    }
  }

  lemma NothingAcked(sendWindow: nat, recvWindow: nat)
    ensures ReachInv(Start(sendWindow, recvWindow))
  {
  }

  /** So when the sender takes the stream for complete, the receiver can read all the rest of
      it without another frame, unless it stopped reading; having read it, it is at the end of
      the stream exactly when a frame with `fin` arrived (`CompleteKnowsEnd` says when one did). */
  lemma CompleteIsReadable(ws: seq<World>, es: seq<Event>, sendWindow: nat, recvWindow: nat, k: nat)
    requires Run(ws, es, sendWindow, recvWindow) && sendWindow <= recvWindow <= U64_MAX && k < |ws|
    requires forall j :: 0 <= j < k ==> Honest(ws[j], es[j]) && Lossless(ws[j], es[j])
    requires ws[k].send.IsComplete() && !ws[k].recv.drain
    ensures forall x :: ws[k].recv.off <= x < |ws[k].written| ==> Has(ws[k].recv.data, x)
    ensures ws[k].recv.off < |ws[k].written| ==> ws[k].recv.Ready()
    ensures ws[k].recv.off == |ws[k].written| ==> (ws[k].recv.IsFin() <==> FinArrived(ws[k]))
  {
    hide Does, Honest, Lossless;
    EndKnownIff(ws, es, sendWindow, recvWindow, k);
    AckedIsReached(ws, es, sendWindow, recvWindow, k);
    RunInv(ws, es, sendWindow, recvWindow, k);
    var w := ws[k];
    forall x | w.recv.off <= x < |w.written|
      ensures Has(w.recv.data, x)
    {
      assert w.send.acked[0].Contains(x) && w.send.acked[0] in w.send.acked;
      assert Reached(w.recv, x);
    }
    if w.recv.off < |w.written| && !w.recv.Ready() {
      NotReadyMissing(w.recv.data, w.recv.off);
    }
  }
}
