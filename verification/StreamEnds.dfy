/** How the receiver comes to know where a stream ends (src/stream.rs, src/lib.rs), over whole
    runs: exactly from a frame with `fin` or from a reset; and when the sender may take that for
    granted. */
module StreamEnds {
  import opened Prelude
  import opened Chunks
  import opened ChunkHeap
  import opened RangeSets
  import opened RecvSpec
  import opened SendSpec
  import opened Delivery

  ghost predicate FinArrived(w: World) {
    exists b :: b in w.received && b.fin
  }

  /** A frame with `fin` that arrived fixed the final size; and as long as the stream is read,
      nothing else does. */
  ghost predicate EndKnown(w: World) {
    && w.received <= w.net
    && (FinArrived(w) ==> w.recv.finOff.Some?)
    && (w.recv.finOff.Some? && !w.recv.drain ==> FinArrived(w))
  }

  lemma EndSame(w: World, w': World)
    requires EndKnown(w) && w'.received == w.received && w.net <= w'.net
    requires w'.recv.finOff == w.recv.finOff && (w.recv.drain ==> w'.recv.drain)
    ensures EndKnown(w')
  {
  }

  lemma EndReceive(w: World, b: RangeBuf, orders: seq<seq<RangeBuf>>, r: Result<()>, w': World)
    requires Inv(w) && Does(w, Receive(b, orders, r), w') && EndKnown(w)
    ensures EndKnown(w')
  {
    hide Pushed, Inv;
    assert w.recv.Valid() && r == Ok(()) by {
      ReceiveKeeps(w, b, orders, r, w');
      RecvValid(w);
    }
    PushGrows(w.recv, b, orders, r, w'.recv);
    assert b in w'.received;
  }

  lemma RecvValid(w: World)
    requires Inv(w)
    ensures w.recv.Valid()
  {
  }

  lemma EndStep(w: World, e: Event, w': World)
    requires Inv(w) && Does(w, e, w') && EndKnown(w)
    ensures EndKnown(w')
  {
    hide Inv, EndKnown, Pushed, Popped, Taken, Queued, Written, Inserted, Without;
    match e
    case Receive(b, orders, r) => EndReceive(w, b, orders, r, w');
    case Read(cap, out) => EndRead(w, cap, out, w');
    case ReceiveReset(size) => EndReset(w, size, w');
    case StopReading => EndSame(w, w');
    case Transmit(max, out) => EndSame(w, w');
    case _ => EndSame(w, w');
  }

  lemma EndRead(w: World, cap: nat, out: seq<byte>, w': World)
    requires Popped(w.recv, cap, out, w'.recv) && EndKnown(w)
    requires w' == w.(recv := w'.recv, delivered := w.delivered + out)
    ensures EndKnown(w')
  {
    EndSame(w, w');
  }

  lemma EndReset(w: World, size: nat, w': World)
    requires EndKnown(w) && w'.received == w.received && w'.net == w.net
    requires w' == w || (w'.recv.drain && (w.recv.finOff.Some? ==> w'.recv.finOff.Some?))
    ensures EndKnown(w')
  {
  }

  lemma {:induction false} EndInv(ws: seq<World>, es: seq<Event>, sendWindow: nat, recvWindow: nat, k: nat)
    requires Run(ws, es, sendWindow, recvWindow) && sendWindow <= recvWindow <= U64_MAX && k < |ws|
    ensures EndKnown(ws[k])
  {
    hide Inv, Does;
    if k > 0 {
      EndInv(ws, es, sendWindow, recvWindow, k - 1);
      RunInv(ws, es, sendWindow, recvWindow, k - 1);
      EndStep(ws[k - 1], es[k - 1], ws[k]);
    }
  }

  /** In every run, once a frame with `fin` arrived the receiver knows the final size, and it is
      the number of bytes written; and as long as the stream is read it knows it from nothing
      else. So it is at the end exactly when such a frame arrived and all bytes were handed out. */
  lemma EndKnownIff(ws: seq<World>, es: seq<Event>, sendWindow: nat, recvWindow: nat, k: nat)
    requires Run(ws, es, sendWindow, recvWindow) && sendWindow <= recvWindow <= U64_MAX && k < |ws|
    ensures FinArrived(ws[k]) ==> ws[k].recv.finOff == Some(|ws[k].written|)
    ensures !ws[k].recv.drain ==>
              && (ws[k].recv.finOff.Some? <==> FinArrived(ws[k]))
              && (ws[k].recv.IsFin() <==> FinArrived(ws[k]) && ws[k].delivered == ws[k].written)
  {
    EndInv(ws, es, sendWindow, recvWindow, k);
    RunInv(ws, es, sendWindow, recvWindow, k);
  }

  // ---------- what a complete sender may conclude ----------

  /** Only a frame that arrived, or was recovered from others that did, is acknowledged. */
  ghost predicate Honest(w: World, e: Event) {
    e.Acked? && e.i < |w.flight| ==> w.flight[e.i] in w.received
  }

  /** An empty write that ends a stream on which something was written. */
  ghost predicate EmptyEnd(w: World, e: Event) {
    e.Write? && e.fin && e.data == [] && w.written != [] && w.send.finOff.None? && !w.send.shutdown
  }

  /** A frame that reaches the end of the stream says so, and acknowledged bytes are those of
      frames that arrived. */
  ghost predicate EndsSaid(w: World) {
    && (forall b :: b in w.net && (b.data == [] || w.send.finOff == Some(b.MaxOff())) ==> b.fin)
    && (forall x :: Member(w.send.acked, x) ==> exists b :: b in w.received && b.Covers(x))
    && (w.send.acked != [] ==> w.received != {})
  }

  lemma AckSaid(w: World, i: nat, w': World)
    requires Inv(w) && Does(w, Acked(i), w') && Honest(w, Acked(i)) && EndsSaid(w)
    ensures EndsSaid(w')
  {
    var f := w.flight[i];
    forall x | Member(w'.send.acked, x)
      ensures exists b :: b in w'.received && b.Covers(x)
    {
      InsertedIsUnion(w.send.acked, Range(f.off, f.MaxOff()), x);
      if Range(f.off, f.MaxOff()).Contains(x) {
        assert f.Covers(x);
      }
    }
  }

  lemma WriteSaid(w: World, data: seq<byte>, fin: bool, w': World)
    requires Inv(w) && Does(w, Write(data, fin), w') && !EmptyEnd(w, Write(data, fin)) && EndsSaid(w)
    ensures EndsSaid(w')
  {
    hide ValidChunks, Matches, Ledger, Canonical;
    if Written(w.send, data, fin).Ok? {
      WriteAppends(w.send, data, fin);
    }
    forall b | b in w'.net && w'.send.finOff == Some(b.MaxOff())
      ensures b.fin
    {
      assert b in w.net && Faithful(b, w.send.finOff, w.written);
    }
  }

  lemma TransmitSaid(w: World, max: nat, out: RangeBuf, w': World)
    requires Inv(w) && Does(w, Transmit(max, out), w') && EndsSaid(w)
    ensures EndsSaid(w')
  {
  }

  lemma LostSaid(w: World, i: nat, w': World)
    requires Inv(w) && Does(w, Lost(i), w') && EndsSaid(w)
    ensures EndsSaid(w')
  {
    QueuedKeepsFin(w, i);
    QueuedKeepsAcked(w.send, w.flight[i]);
    hide Queued, Inv, Without;
  }

  lemma QueuedKeepsAcked(s: Send, f: RangeBuf)
    ensures Queued(s, f).Ok? ==> Queued(s, f).value.acked == s.acked
  {
  }

  lemma OtherSaid(w: World, e: Event, w': World)
    requires EndsSaid(w) && w'.net == w.net && w.received <= w'.received
    requires w'.send.acked == w.send.acked && w'.send.finOff == w.send.finOff
    ensures EndsSaid(w')
  {
  }

  lemma SaidStep(w: World, e: Event, w': World)
    requires Inv(w) && Does(w, e, w') && Honest(w, e) && !EmptyEnd(w, e) && EndsSaid(w)
    ensures EndsSaid(w')
  {
    hide Inv, EndsSaid, Pushed, Popped, Taken, Queued, Written, Inserted, Without;
    match e
    case Acked(i) => AckSaid(w, i, w');
    case Write(data, fin) => WriteSaid(w, data, fin, w');
    case Transmit(max, out) => TransmitSaid(w, max, out, w');
    case Lost(i) => LostSaid(w, i, w');
    case _ => OtherSaid(w, e, w');
  }

  lemma {:induction false} SaidInv(ws: seq<World>, es: seq<Event>, sendWindow: nat, recvWindow: nat, k: nat)
    requires Run(ws, es, sendWindow, recvWindow) && sendWindow <= recvWindow <= U64_MAX && k < |ws|
    requires forall j :: 0 <= j < k ==> Honest(ws[j], es[j]) && !EmptyEnd(ws[j], es[j])
    ensures EndsSaid(ws[k])
  {
    hide Inv, Does, Honest, EmptyEnd;
    if k > 0 {
      SaidInv(ws, es, sendWindow, recvWindow, k - 1);
      RunInv(ws, es, sendWindow, recvWindow, k - 1);
      SaidStep(ws[k - 1], es[k - 1], ws[k]);
    }
  }

  lemma CompleteSaid(w: World)
    requires Inv(w) && EndsSaid(w) && w.send.IsComplete() && w.received <= w.net
    ensures FinArrived(w)
  {
    var size := w.send.finOff.value;
    if size > 0 {
      assert w.send.acked[0].Contains(size - 1);
      assert Member(w.send.acked, size - 1);
      var b :| b in w.received && b.Covers(size - 1);
      assert Faithful(b, w.send.finOff, w.written);
      assert b.MaxOff() == size;
    } else {
      var b :| b in w.received;
      assert Faithful(b, w.send.finOff, w.written);
    }
  }

  /** With honest acknowledgements, and if no empty write ended the stream after bytes were
      written, a complete sender can be sure that the receiver knows the end. */
  lemma CompleteKnowsEnd(ws: seq<World>, es: seq<Event>, sendWindow: nat, recvWindow: nat, k: nat)
    requires Run(ws, es, sendWindow, recvWindow) && sendWindow <= recvWindow <= U64_MAX && k < |ws|
    requires forall j :: 0 <= j < k ==> Honest(ws[j], es[j]) && !EmptyEnd(ws[j], es[j])
    requires ws[k].send.IsComplete()
    ensures FinArrived(ws[k]) && ws[k].recv.finOff == Some(|ws[k].written|)
  {
    hide Does, Honest, EmptyEnd;
    SaidInv(ws, es, sendWindow, recvWindow, k);
    RunInv(ws, es, sendWindow, recvWindow, k);
    EndInv(ws, es, sendWindow, recvWindow, k);
    CompleteSaid(ws[k]);
    EndKnownIff(ws, es, sendWindow, recvWindow, k);
  }
}
