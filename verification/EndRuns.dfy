/** Two runs in which the end of a stream goes unnoticed (src/stream.rs): the sender takes the
    stream for complete before its end was ever sent, and the receiver is at the end with
    nothing left that a read could return. */
module EndRuns {
  import opened Prelude
  import opened Chunks
  import opened ChunkHeap
  import opened RangeSets
  import opened RecvSpec
  import opened SendSpec
  import opened Delivery
  import opened StreamEnds
  import opened DeliveryRuns

  const LATE_LAST: RangeBuf := RangeBuf([7], 0, true)

  /** The states of both runs: what is queued, acknowledged and in flight, which frames were
      sent and arrived, and what the receiver holds. */
  function Now(queue: seq<RangeBuf>, acked: seq<Range>, fin: Option<nat>, flight: seq<RangeBuf>, net: set<RangeBuf>,
               recv: Recv, delivered: seq<byte>, received: set<RangeBuf>): World
  {
    World(Send(queue, 1, |queue|, 10, fin, false, acked), [7], flight, false, net, {}, {}, recv, delivered, received)
  }

  const BUFFERED: Recv := Recv([LATE_FRAME], 0, 1, 10, 10, None, false)
  const READ: Recv := Recv([], 1, 1, 10, 11, None, false)

  const ONE: set<RangeBuf> := {LATE_FRAME}
  const BOTH: set<RangeBuf> := {LATE_FRAME, LATE_LAST}

  lemma Starts()
    ensures Goes(Late0(), Write([7], false), Late1())
    ensures Goes(Late1(), Transmit(1, LATE_FRAME), Late2())
  {
    LateWrite();
    LateTransmit();
  }

  lemma Arrives(w: World, w': World)
    requires Inv(w) && w == Late2() && w' == Now([], [], None, [LATE_FRAME], ONE, BUFFERED, [], ONE)
    ensures Goes(w, Receive(LATE_FRAME, [[]], Ok(())), w')
  {
    hide Inv, Goes;
    assert [] + [LATE_FRAME] == [LATE_FRAME] && {} + ONE == ONE;
    TailReceive(w, LATE_FRAME, w');
  }

  // ---------- complete before the end was sent ----------

  function EarlyWorld(k: nat): World {
    match k
    case 0 => Late0()
    case 1 => Late1()
    case 2 => Late2()
    case 3 => Now([], [], None, [LATE_FRAME], ONE, BUFFERED, [], ONE)
    case 4 => Now([], [Range(0, 1)], None, [], ONE, BUFFERED, [], ONE)
    case _ => Now([], [Range(0, 1)], Some(1), [], ONE, BUFFERED, [], ONE)
  }

  const EARLY_EVENTS: seq<Event> :=
    [Write([7], false), Transmit(1, LATE_FRAME), Receive(LATE_FRAME, [[]], Ok(())), Acked(0), Write([], true)]

  lemma EmptyFin(w: World, w': World)
    requires Inv(w) && w.send.finOff.None? && !w.send.shutdown && w' == w.(send := w.send.(finOff := Some(w.send.off)))
    ensures Goes(w, Write([], true), w')
  {
    assert w.written + [][..0] == w.written;
    assert AckOff(w.send.acked) <= w.send.off;
    StepKeeps(w, Write([], true), w');
  }

  lemma EarlyStep(k: nat)
    requires k < 5 && Inv(EarlyWorld(k))
    ensures Goes(EarlyWorld(k), EARLY_EVENTS[k], EarlyWorld(k + 1))
  {
    hide Inv, Goes, Inserted;
    if k < 2 {
      Starts();
    } else if k == 2 {
      Arrives(EarlyWorld(2), EarlyWorld(3));
    } else if k == 3 {
      Joins();
      TailAck(EarlyWorld(3), [Range(0, 1)], EarlyWorld(4));
    } else {
      EmptyFin(EarlyWorld(4), EarlyWorld(5));
    }
  }

  lemma {:induction false} EarlyInv(k: nat)
    requires k <= 5
    ensures Inv(EarlyWorld(k))
  {
    hide Inv, Does;
    if k == 0 {
      Starts();
    } else {
      EarlyInv(k - 1);
      EarlyStep(k - 1);
    }
  }

  lemma EarlyEnd()
    ensures EarlyWorld(0) == Delivery.Start(10, 10)
    ensures var w := EarlyWorld(5);
            && w.send.IsComplete() && w.send.data == [] && w.flight == []
            && !FinArrived(w) && w.recv.finOff.None? && !w.recv.drain
  {
  }

  /** A byte is written, arrives and is acknowledged; then an empty write ends the stream. The
      sender takes it for complete at once, with the end not even sent. */
  lemma CompleteWithoutEnd()
    ensures var ws := seq(6, k requires 0 <= k => EarlyWorld(k)); Run(ws, EARLY_EVENTS, 10, 10)
    ensures forall k :: 0 <= k < 5 ==> Honest(EarlyWorld(k), EARLY_EVENTS[k])
    ensures var w := EarlyWorld(5);
            && w.send.IsComplete() && w.send.data == [] && w.flight == []
            && !FinArrived(w) && w.recv.finOff.None? && !w.recv.drain
  {
    hide Inv, Does, FinArrived;
    var ws := seq(6, k requires 0 <= k => EarlyWorld(k));
    forall k: nat | k < 5
      ensures Goes(EarlyWorld(k), EARLY_EVENTS[k], EarlyWorld(k + 1))
    {
      hide EarlyWorld;
      EarlyInv(k);
      EarlyStep(k);
    }
    EarlyEnd();
    hide EarlyWorld;
    forall k | 0 <= k < 5
      ensures ws[k].send.off <= ws[k].send.maxData && ws[k].recv.Valid() && Does(ws[k], EARLY_EVENTS[k], ws[k + 1])
    {
      assert ws[k] == EarlyWorld(k) && ws[k + 1] == EarlyWorld(k + 1);
    }
  }

  // ---------- an end that no read returns ----------

  function UnreadWorld(k: nat): World {
    match k
    case 0 => Late0()
    case 1 => Late1()
    case 2 => Late2()
    case 3 => Now([], [], None, [LATE_FRAME], ONE, BUFFERED, [], ONE)
    case 4 => Now([], [], None, [LATE_FRAME], ONE, READ, [7], ONE)
    case 5 => Now([LATE_FRAME], [], None, [], ONE, READ, [7], ONE)
    case 6 => Now([LATE_FRAME], [], Some(1), [], ONE, READ, [7], ONE)
    case 7 => Now([], [], Some(1), [LATE_LAST], BOTH, READ, [7], ONE)
    case _ => Now([], [], Some(1), [LATE_LAST], BOTH, READ.(finOff := Some(1)), [7], BOTH)
  }

  const UNREAD_EVENTS: seq<Event> :=
    [Write([7], false), Transmit(1, LATE_FRAME), Receive(LATE_FRAME, [[]], Ok(())), Read(1, [7]), Lost(0),
     Write([], true), Transmit(1, LATE_LAST), Receive(LATE_LAST, [], Ok(()))]

  lemma OneByte(x: int, v: byte)
    ensures Holds(BUFFERED.data, x, v) <==> x == 0 && v == 7
    ensures Has(BUFFERED.data, x) <==> x == 0
    ensures !Holds(READ.data, x, v)
  {
    Holds1(LATE_FRAME, x, v);
    assert LATE_FRAME in BUFFERED.data;
  }

  lemma PopsByte()
    ensures BUFFERED.Ready() && Popped(BUFFERED, 1, [7], READ)
  {
    assert Bytes([LATE_FRAME]) == 1;
    assert Lowest([LATE_FRAME]) == 0;
    forall x, v
      ensures Holds(BUFFERED.data, x, v) <==> x == 0 && v == 7
      ensures !Holds(READ.data, x, v)
    {
      OneByte(x, v);
    }
    hide Holds, Has;
  }

  lemma ReadsByte(w: World, w': World)
    requires Inv(w) && w == UnreadWorld(3) && w' == UnreadWorld(4)
    ensures Goes(w, Read(1, [7]), w')
  {
    hide Inv, Popped, Recv.Ready;
    CanStep(w);
    PopsByte();
    assert [] + [7] == [7];
    StepKeeps(w, Read(1, [7]), w');
  }

  lemma Requeues(s: Send)
    requires s == Now([], [], None, [], ONE, READ, [7], ONE).send
    ensures Queued(s, LATE_FRAME) == Ok(s.(data := [LATE_FRAME], len := 1))
  {
    assert [] + [LATE_FRAME] == [LATE_FRAME];
  }

  lemma LosesFrame(w: World, w': World)
    requires Inv(w) && w == UnreadWorld(4) && w' == UnreadWorld(5)
    ensures Goes(w, Lost(0), w')
  {
    hide Inv, Queued, Pushed, Popped, Taken, Written, Inserted, Recv.Valid, Send.Valid;
    CanStep(w);
    assert Without([LATE_FRAME], 0) == [];
    Requeues(w.send);
    assert Does(w, Lost(0), w');
    StepKeeps(w, Lost(0), w');
  }

  lemma SendsAgain(w: World, w': World)
    requires Inv(w) && w == UnreadWorld(6) && w' == UnreadWorld(7)
    ensures Goes(w, Transmit(1, LATE_LAST), w')
  {
    hide Inv;
    CanStep(w);
    forall x, v
      ensures Holds([LATE_FRAME], x, v) <==> Stores(LATE_LAST, x, v)
    {
      Holds1(LATE_FRAME, x, v);
    }
    TakesAll(w.send, LATE_LAST);
    hide Taken, Pushed, Popped, Written, Queued, Inserted, Recv.Valid, Send.Valid, Holds;
    assert ONE + {LATE_LAST} == BOTH;
    StepKeeps(w, Transmit(1, LATE_LAST), w');
  }

  lemma EndArrives(w: World, w': World)
    requires Inv(w) && w == UnreadWorld(7) && w' == UnreadWorld(8)
    ensures Goes(w, Receive(LATE_LAST, [], Ok(())), w')
  {
    hide Inv;
    CanStep(w);
    assert ONE + {LATE_LAST} == BOTH;
    StepKeeps(w, Receive(LATE_LAST, [], Ok(())), w');
  }

  lemma UnreadStep(k: nat)
    requires k < 8 && Inv(UnreadWorld(k))
    ensures Goes(UnreadWorld(k), UNREAD_EVENTS[k], UnreadWorld(k + 1))
  {
    hide Inv, Goes;
    match k
    case 0 => Starts();
    case 1 => Starts();
    case 2 => Arrives(UnreadWorld(2), UnreadWorld(3));
    case 3 => ReadsByte(UnreadWorld(3), UnreadWorld(4));
    case 4 => LosesFrame(UnreadWorld(4), UnreadWorld(5));
    case 5 => EmptyFin(UnreadWorld(5), UnreadWorld(6));
    case 6 => SendsAgain(UnreadWorld(6), UnreadWorld(7));
    case _ => EndArrives(UnreadWorld(7), UnreadWorld(8));
  }

  lemma {:induction false} UnreadInv(k: nat)
    requires k <= 8
    ensures Inv(UnreadWorld(k))
  {
    hide Inv, Does;
    if k == 0 {
      Starts();
    } else {
      UnreadInv(k - 1);
      UnreadStep(k - 1);
    }
  }

  lemma UnreadEnd()
    ensures UnreadWorld(0) == Delivery.Start(10, 10)
    ensures var w := UnreadWorld(8);
            w.recv.Valid() && w.recv.IsFin() && w.recv.data == [] && !w.recv.drain && FinArrived(w)
  {
    assert LATE_LAST in BOTH && LATE_LAST.fin;
  }

  /** A byte is written, arrives and is read, its frame is taken for lost, and then an empty
      write ends the stream. The byte goes out again with the end of the stream, and the
      receiver, at the end, has nothing that a read could return: then and after every further
      frame (`AtEndStays`). */
  lemma EndNeverRead()
    ensures var ws := seq(9, k requires 0 <= k => UnreadWorld(k)); Run(ws, UNREAD_EVENTS, 10, 10)
    ensures var w := UnreadWorld(8);
            w.recv.Valid() && w.recv.IsFin() && w.recv.data == [] && !w.recv.drain && FinArrived(w)
  {
    hide Inv, Does, FinArrived;
    var ws := seq(9, k requires 0 <= k => UnreadWorld(k));
    forall k: nat | k < 8
      ensures Goes(UnreadWorld(k), UNREAD_EVENTS[k], UnreadWorld(k + 1))
    {
      hide UnreadWorld;
      UnreadInv(k);
      UnreadStep(k);
    }
    UnreadEnd();
    hide UnreadWorld;
    forall k | 0 <= k < 8
      ensures ws[k].send.off <= ws[k].send.maxData && ws[k].recv.Valid() && Does(ws[k], UNREAD_EVENTS[k], ws[k + 1])
    {
      assert ws[k] == UnreadWorld(k) && ws[k + 1] == UnreadWorld(k + 1);
    }
  }

  /** A receiver at the end with nothing buffered never has anything to read again, whatever
      frame arrives. */
  lemma AtEndStays(s: Recv, b: RangeBuf, orders: seq<seq<RangeBuf>>, r: Result<()>, t: Recv)
    requires s.Valid() && s.IsFin() && s.data == [] && Pushed(s, b, orders, r, t)
    ensures t == s && !t.Ready()
  {
  }
}
