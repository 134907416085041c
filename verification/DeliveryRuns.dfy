/** Two runs of a stream that go wrong (src/stream.rs, src/lib.rs): a lost frame that is refused
    for good, and an acknowledged byte that never reached the receiver's buffer. */
module DeliveryRuns {
  import opened Prelude
  import opened Chunks
  import opened RangeSets
  import opened RecvSpec
  import opened SendSpec
  import opened Delivery
  import opened StreamEnds
  import opened Reach
  import opened RecvCompleteness

  // ---------- reading off small bags ----------

  lemma Holds1(a: RangeBuf, x: int, v: byte)
    ensures Holds([a], x, v) <==> Stores(a, x, v)
    ensures !Holds([], x, v)
  {
    HoldsParts([a], a, [], x, v);
  }

  lemma Holds3(a: RangeBuf, b: RangeBuf, c: RangeBuf, x: int, v: byte)
    ensures Holds([a, b, c], x, v) <==> Stores(a, x, v) || Stores(b, x, v) || Stores(c, x, v)
  {
    HoldsParts([a, b, c], a, [b, c], x, v);
    HoldsParts([b, c], b, [c], x, v);
    Holds1(c, x, v);
  }

  /** Taking `n` bytes off the one chunk that is queued. */
  lemma TakesFront(s: Send, b: RangeBuf, n: nat)
    requires s.Valid() && !s.shutdown && s.data == [b] && 0 < n < |b.data| && b.off + n <= s.maxData
    ensures var out := b.Head(n);
            Taken(s, n, out.(fin := s.finOff == Some(out.MaxOff())), s.(data := [b.Tail(n)], len := s.len - n))
  {
    var rest := b.Tail(n);
    assert b in s.data;
    assert Bytes([b]) == |b.data| + Bytes([]) && Bytes([rest]) == |rest.data| + Bytes([]);
    forall x, v
      ensures Holds([b], x, v) <==> Stores(b, x, v)
      ensures Holds([rest], x, v) <==> Stores(rest, x, v)
    {
      Holds1(b, x, v);
      Holds1(rest, x, v);
    }
    assert Lowest([b]) == 0;
  }

  /** Taking all there is. */
  lemma TakesAll(s: Send, out: RangeBuf)
    requires s.Valid() && !s.shutdown && out.data != [] && s.data != [] && out.off == s.LowOff()
    requires out.MaxOff() <= s.maxData && |out.data| == s.len && (out.fin <==> s.finOff == Some(out.MaxOff()))
    requires forall x, v :: Holds(s.data, x, v) <==> Stores(out, x, v)
    ensures Taken(s, |out.data|, out, s.(data := [], len := 0))
  {
  }

  // ---------- a refused retransmission ----------

  const LATE_FRAME: RangeBuf := RangeBuf([7], 0, false)

  const LATE_EVENTS: seq<Event> := [Write([7], false), Transmit(1, LATE_FRAME), Write([], true), Lost(0)]

  function LateAfter(queue: seq<RangeBuf>, len: nat, fin: Option<nat>, flight: seq<RangeBuf>, net: set<RangeBuf>,
                     failed: bool): World
  {
    World(Send(queue, 1, len, 10, fin, false, []), [7], flight, failed, net, {}, {},
          Recv([], 0, 0, 10, 10, None, false), [], {})
  }

  function Late0(): World {
    Delivery.Start(10, 10)
  }

  function Late1(): World {
    LateAfter([LATE_FRAME], 1, None, [], {}, false)
  }

  function Late2(): World {
    LateAfter([], 0, None, [LATE_FRAME], {LATE_FRAME}, false)
  }

  function Late3(): World {
    LateAfter([], 0, Some(1), [LATE_FRAME], {LATE_FRAME}, false)
  }

  function Late4(): World {
    LateAfter([], 0, Some(1), [], {LATE_FRAME}, true)
  }

  /** A step of a run: it can be taken, and the invariant goes on. */
  ghost predicate Goes(w: World, e: Event, w': World) {
    && Inv(w) && Inv(w')
    && w.send.off <= w.send.maxData && w.recv.Valid() && Does(w, e, w')
  }

  lemma CanStep(w: World)
    requires Inv(w)
    ensures w.send.Valid() && w.send.off <= w.send.maxData && w.recv.Valid()
  {
  }

  lemma LateWrite()
    ensures Goes(Late0(), Write([7], false), Late1())
  {
    StartInv(10, 10);
    assert [7][..1] == [7];
    assert SendSpec.Pieces([7], 0, false) == [LATE_FRAME];
    assert [] + [LATE_FRAME] == [LATE_FRAME];
    StepKeeps(Late0(), Write([7], false), Late1());
  }

  lemma LateTransmit()
    requires Inv(Late1())
    ensures Goes(Late1(), Transmit(1, LATE_FRAME), Late2())
  {
    forall x, v
      ensures Holds([LATE_FRAME], x, v) <==> Stores(LATE_FRAME, x, v)
    {
      Holds1(LATE_FRAME, x, v);
    }
    TakesAll(Late1().send, LATE_FRAME);
    StepKeeps(Late1(), Transmit(1, LATE_FRAME), Late2());
  }

  lemma LateEnd()
    requires Inv(Late2())
    ensures Goes(Late2(), Write([], true), Late3())
  {
    assert Late2().written + [][..0] == Late2().written;
    StepKeeps(Late2(), Write([], true), Late3());
  }

  lemma LateLoss()
    requires Inv(Late3())
    ensures Goes(Late3(), Lost(0), Late4())
  {
    hide Inv;
    CanStep(Late3());
    assert Without([LATE_FRAME], 0) == [];
    StepKeeps(Late3(), Lost(0), Late4());
  }

  /** A byte is written, sent, the stream is ended by an empty write, and the frame is lost: it
      is refused, and the byte is nowhere any more. */
  lemma LateFinFails()
    ensures Run([Late0(), Late1(), Late2(), Late3(), Late4()], LATE_EVENTS, 10, 10)
    ensures LateFin(Late2(), LATE_EVENTS[2])
    ensures var w := Late4();
            && w.failed && w.written == [7] && w.delivered == []
            && !Has(w.send.data, 0) && !Has(w.flight, 0) && !Member(w.send.acked, 0) && !Has(w.recv.data, 0)
  {
    hide Inv, Does;
    LateWrite();
    LateTransmit();
    LateEnd();
    LateLoss();
    assert LATE_FRAME in Late2().flight && LATE_FRAME.MaxOff() == Late2().send.off;
  }

  // ---------- an acknowledged byte that is nowhere ----------

  const ALL: RangeBuf := RangeBuf([1, 2, 3, 4], 0, true)
  const A: RangeBuf := RangeBuf([1], 0, false)
  const B: RangeBuf := RangeBuf([2], 1, false)
  const C: RangeBuf := RangeBuf([3], 2, false)
  const LAST: RangeBuf := RangeBuf([4], 3, true)
  const LAST_TWO: RangeBuf := RangeBuf([3, 4], 2, true)
  const AGAIN: RangeBuf := RangeBuf([2, 3, 4], 1, true)

  /** Four bytes are written; three go out one by one; the second and third are taken for
      lost and go out again with the fourth. Then all four frames arrive, and the
      acknowledgements of the first and the last one with them. */
  function TailEvent(k: nat): Event {
    match k
    case 0 => Write([1, 2, 3, 4], true)
    case 1 => Transmit(1, A)
    case 2 => Transmit(1, B)
    case 3 => Transmit(1, C)
    case 4 => Lost(1)
    case 5 => Lost(1)
    case 6 => Transmit(3, AGAIN)
    case 7 => Receive(A, [[]], Ok(()))
    case 8 => Receive(C, [[A]], Ok(()))
    case 9 => Receive(B, [[A, C]], Ok(()))
    case 10 => Receive(AGAIN, [[A, C, B]], Ok(()))
    case 11 => Acked(0)
    case _ => Acked(0)
  }

  /** The states of the run after the write: what is queued, acknowledged and in flight, which
      frames were sent, and what the receiver buffers. */
  function After(queue: seq<RangeBuf>, len: nat, acked: seq<Range>, flight: seq<RangeBuf>, net: set<RangeBuf>,
                 data: seq<RangeBuf>, recvLen: nat, recvFin: Option<nat>, received: set<RangeBuf>): World
  {
    World(Send(queue, 4, len, 4, Some(4), false, acked), [1, 2, 3, 4], flight, false, net, {}, {},
          Recv(data, 0, recvLen, 4, 4, recvFin, false), [], received)
  }

  function TailWorld(k: nat): World {
    match k
    case 0 => Delivery.Start(4, 4)
    case 1 => After([ALL], 4, [], [], {}, [], 0, None, {})
    case 2 => After([AGAIN], 3, [], [A], {A}, [], 0, None, {})
    case 3 => After([LAST_TWO], 2, [], [A, B], {A, B}, [], 0, None, {})
    case 4 => After([LAST], 1, [], [A, B, C], {A, B, C}, [], 0, None, {})
    case 5 => After([LAST, B], 2, [], [A, C], {A, B, C}, [], 0, None, {})
    case 6 => After([LAST, B, C], 3, [], [A], {A, B, C}, [], 0, None, {})
    case 7 => After([], 0, [], [A, AGAIN], {A, B, C, AGAIN}, [], 0, None, {})
    case 8 => After([], 0, [], [A, AGAIN], {A, B, C, AGAIN}, [A], 1, None, {A})
    case 9 => After([], 0, [], [A, AGAIN], {A, B, C, AGAIN}, [A, C], 3, None, {A, C})
    case 10 => After([], 0, [], [A, AGAIN], {A, B, C, AGAIN}, [A, C, B], 3, None, {A, B, C})
    case 11 => After([], 0, [], [A, AGAIN], {A, B, C, AGAIN}, [A, C, B], 3, Some(4), {A, B, C, AGAIN})
    case 12 => After([], 0, [Range(0, 1)], [AGAIN], {A, B, C, AGAIN}, [A, C, B], 3, Some(4), {A, B, C, AGAIN})
    case _ => After([], 0, [Range(0, 4)], [], {A, B, C, AGAIN}, [A, C, B], 3, Some(4), {A, B, C, AGAIN})
  }

  lemma TailWrite(w: World, w': World)
    requires w == Delivery.Start(4, 4) && w' == After([ALL], 4, [], [], {}, [], 0, None, {})
    ensures Goes(w, Write([1, 2, 3, 4], true), w')
  {
    StartInv(4, 4);
    assert [1, 2, 3, 4][..4] == [1, 2, 3, 4];
    assert SendSpec.Pieces([1, 2, 3, 4], 0, true) == [ALL];
    assert [] + [ALL] == [ALL];
    StepKeeps(w, Write([1, 2, 3, 4], true), w');
  }

  /** Sending the first byte of the one chunk that is queued. */
  lemma SendFront(w: World, b: RangeBuf, out: RangeBuf, rest: RangeBuf, w': World)
    requires Inv(w) && !w.send.shutdown && w.send.data == [b] && 1 < |b.data| && b.MaxOff() <= w.send.maxData
    requires out == b.Head(1) && rest == b.Tail(1) && w.send.finOff != Some(b.off + 1)
    requires w' == w.(send := w.send.(data := [rest], len := w.send.len - 1),
                      net := w.net + {out}, flight := w.flight + [out])
    ensures Goes(w, Transmit(1, out), w')
  {
    hide Inv;
    CanStep(w);
    TakesFront(w.send, b, 1);
    StepKeeps(w, Transmit(1, out), w');
  }

  lemma Heads()
    ensures ALL.Head(1) == A && ALL.Tail(1) == AGAIN
    ensures AGAIN.Head(1) == B && AGAIN.Tail(1) == LAST_TWO
    ensures LAST_TWO.Head(1) == C && LAST_TWO.Tail(1) == LAST
  {
  }

  /** A lost frame that is neither acknowledged nor the last one goes to the end of the queue. */
  lemma TailLoss(w: World, i: nat, w': World)
    requires Inv(w) && !w.send.shutdown && w.send.acked == [] && i < |w.flight|
    requires var f := w.flight[i]; f.data != [] && !f.fin && w.send.finOff.Some? && f.MaxOff() < w.send.finOff.value
    requires var f := w.flight[i];
             w' == w.(flight := Without(w.flight, i),
                      send := w.send.(data := w.send.data + [f], len := w.send.len + |f.data|))
    ensures Goes(w, Lost(i), w')
  {
    hide Inv;
    CanStep(w);
    StepKeeps(w, Lost(i), w');
  }

  lemma TailAgain(w: World, w': World)
    requires Inv(w) && w == After([LAST, B, C], 3, [], [A], {A, B, C}, [], 0, None, {})
    requires w' == After([], 0, [], [A, AGAIN], {A, B, C, AGAIN}, [], 0, None, {})
    ensures Goes(w, Transmit(3, AGAIN), w')
  {
    hide Inv, Taken;
    CanStep(w);
    forall x, v
      ensures Holds([LAST, B, C], x, v) <==> Stores(AGAIN, x, v)
    {
      Holds3(LAST, B, C, x, v);
    }
    assert [LAST, B, C][1] == B && [LAST, B, C][Lowest([LAST, B, C])].off == 1;
    TakesAll(w.send, AGAIN);
    StepKeeps(w, Transmit(3, AGAIN), w');
  }

  lemma TailReceive(w: World, b: RangeBuf, w': World)
    requires Inv(w) && b in w.net && PushError(w.recv, b).None? && !w.recv.drain && b.data != [] && !b.fin
    requires w.recv.off <= b.off && forall c :: c in w.recv.data ==> c.MaxOff() <= b.off || b.MaxOff() <= c.off
    requires w' == w.(recv := w.recv.(data := w.recv.data + [b], len := Max(w.recv.len, b.MaxOff())),
                      received := w.received + {b})
    ensures Goes(w, Receive(b, [w.recv.data], Ok(())), w')
  {
    hide Inv;
    CanStep(w);
    PushMisses(w.recv, b);
    StepKeeps(w, Receive(b, [w.recv.data], Ok(())), w');
  }

  lemma TailSplit()
    ensures Visit(C, AGAIN, None) == Fits(B, Some(LAST_TWO))
  {
    Heads();
  }

  lemma TailVisits()
    ensures Visit(A, AGAIN, None) == Fits(AGAIN, None)
    ensures Visit(C, AGAIN, None) == Fits(B, Some(LAST_TWO))
    ensures Visit(B, B, Some(LAST_TWO)) == Contained
  {
    TailSplit();
  }

  /** The last frame is split at the third byte, and its front is buffered already: the call
      returns and the rest is gone. */
  lemma TailPass()
    ensures Pass([A, C, B], AGAIN, None) == Contained
  {
    hide Visit;
    TailVisits();
    assert [A, C, B][1..] == [C, B] && [C, B][1..] == [B];
    assert Pass([B], B, Some(LAST_TWO)) == Contained;
    assert Pass([C, B], AGAIN, None) == Contained;
  }

  lemma TailPushed(s: Recv, t: Recv)
    requires s.Valid() && s == Recv([A, C, B], 0, 3, 4, 4, None, false) && t == s.(finOff := Some(4))
    ensures Pushed(s, AGAIN, [[A, C, B]], Ok(()), t)
  {
    hide Pass;
    TailPass();
    assert RecvSpec.Fresh(AGAIN, 0) == AGAIN;
    assert Filled(Store([A, C, B], 3), 0, AGAIN, [[A, C, B]], Store([A, C, B], 3));
  }

  lemma TailLosesLast(w: World, w': World)
    requires Inv(w) && w == After([], 0, [], [A, AGAIN], {A, B, C, AGAIN}, [A, C, B], 3, None, {A, B, C})
    requires w' == After([], 0, [], [A, AGAIN], {A, B, C, AGAIN}, [A, C, B], 3, Some(4), {A, B, C, AGAIN})
    ensures Goes(w, Receive(AGAIN, [[A, C, B]], Ok(())), w')
  {
    hide Inv, Pushed;
    CanStep(w);
    TailPushed(w.recv, w'.recv);
    assert {A, B, C, AGAIN} == {A, B, C} + {AGAIN};
    StepKeeps(w, Receive(AGAIN, [[A, C, B]], Ok(())), w');
  }

  lemma Joins()
    ensures Inserted([], Range(0, 1)) == [Range(0, 1)]
    ensures Inserted([Range(0, 1)], Range(1, 4)) == [Range(0, 4)]
  {
    assert Below([Range(0, 1)], 1) == 0;
    assert UpTo([Range(0, 1)], 4) == 1 + UpTo([Range(0, 1)][1..], 4);
  }

  lemma TailAck(w: World, acked: seq<Range>, w': World)
    requires Inv(w) && w.flight != []
    requires var f := w.flight[0]; acked == Inserted(w.send.acked, Range(f.off, f.MaxOff()))
    requires w' == w.(flight := w.flight[1..], send := w.send.(acked := acked))
    ensures Goes(w, Acked(0), w')
  {
    hide Inv, Inserted;
    CanStep(w);
    assert Without(w.flight, 0) == w.flight[1..];
    StepKeeps(w, Acked(0), w');
  }

  lemma TailSends(k: nat)
    requires 1 <= k < 4 && Inv(TailWorld(k))
    ensures Goes(TailWorld(k), TailEvent(k), TailWorld(k + 1))
  {
    hide Inv, Goes, RangeBuf.Head, RangeBuf.Tail;
    Heads();
    assert [] + [A] == [A] && [A] + [B] == [A, B] && [A, B] + [C] == [A, B, C];
    assert {} + {A} == {A} && {A} + {B} == {A, B} && {A, B} + {C} == {A, B, C};
    if k == 1 {
      SendFront(TailWorld(1), ALL, A, AGAIN, TailWorld(2));
    } else if k == 2 {
      SendFront(TailWorld(2), AGAIN, B, LAST_TWO, TailWorld(3));
    } else {
      SendFront(TailWorld(3), LAST_TWO, C, LAST, TailWorld(4));
    }
  }

  lemma TailLosses(k: nat)
    requires (k == 4 || k == 5) && Inv(TailWorld(k))
    ensures Goes(TailWorld(k), TailEvent(k), TailWorld(k + 1))
  {
    hide Inv, Goes;
    assert Without([A, B, C], 1) == [A, C] && Without([A, C], 1) == [A];
    assert [LAST] + [B] == [LAST, B] && [LAST, B] + [C] == [LAST, B, C];
    TailLoss(TailWorld(k), 1, TailWorld(k + 1));
  }

  lemma TailReceives(k: nat)
    requires 7 <= k < 10 && Inv(TailWorld(k))
    ensures Goes(TailWorld(k), TailEvent(k), TailWorld(k + 1))
  {
    hide Inv, Goes;
    assert [] + [A] == [A] && [A] + [C] == [A, C] && [A, C] + [B] == [A, C, B];
    assert {} + {A} == {A} && {A} + {C} == {A, C} && {A, C} + {B} == {A, B, C};
    TailReceive(TailWorld(k), if k == 7 then A else if k == 8 then C else B, TailWorld(k + 1));
  }

  lemma TailAcks(k: nat)
    requires 11 <= k < 13 && Inv(TailWorld(k))
    ensures Goes(TailWorld(k), TailEvent(k), TailWorld(k + 1))
  {
    hide Inv, Goes, Inserted;
    Joins();
    assert [A, AGAIN][1..] == [AGAIN] && [AGAIN][1..] == [];
    TailAck(TailWorld(k), if k == 11 then [Range(0, 1)] else [Range(0, 4)], TailWorld(k + 1));
  }

  lemma TailStep(k: nat)
    requires k < 13 && Inv(TailWorld(k))
    ensures Goes(TailWorld(k), TailEvent(k), TailWorld(k + 1))
  {
    if k == 0 {
      hide Inv, Goes;
      TailWrite(TailWorld(0), TailWorld(1));
    } else if k == 6 {
      hide Inv, Goes;
      TailAgain(TailWorld(6), TailWorld(7));
    } else if k == 10 {
      hide Inv, Goes;
      TailLosesLast(TailWorld(10), TailWorld(11));
    } else {
      hide Inv, Goes, TailWorld, TailEvent;
      if k < 4 {
        TailSends(k);
      } else if k < 6 {
        TailLosses(k);
      } else if k < 10 {
        TailReceives(k);
      } else {
        TailAcks(k);
      }
    }
  }

  lemma {:induction false} TailInv(k: nat)
    requires k <= 13
    ensures Inv(TailWorld(k))
  {
    hide Inv, Does;
    if k == 0 {
      TailWrite(TailWorld(0), TailWorld(1));
    } else {
      TailInv(k - 1);
      TailStep(k - 1);
    }
  }

  function TailWorlds(): seq<World> {
    seq(14, k requires 0 <= k => TailWorld(k))
  }

  function TailEvents(): seq<Event> {
    seq(13, k requires 0 <= k => TailEvent(k))
  }

  lemma TailGoes(k: nat)
    requires k < 13
    ensures Goes(TailWorld(k), TailEvent(k), TailWorld(k + 1))
  {
    hide Inv, Goes, TailWorld, TailEvent;
    TailInv(k);
    TailStep(k);
  }

  lemma TailHonest(k: nat)
    requires k < 13
    ensures Honest(TailWorld(k), TailEvent(k))
  {
  }

  lemma TailEnd()
    ensures TailWorld(0) == Delivery.Start(4, 4)
    ensures var w := TailWorld(13);
            && w.send.IsComplete() && w.send.data == [] && w.flight == [] && w.written == [1, 2, 3, 4]
            && !Reached(w.recv, 3)
  {
  }

  /** With honest acknowledgements the sender takes the stream for complete and has nothing
      left to send, while the last byte is neither handed out nor buffered. */
  lemma AckedButLost()
    ensures Run(TailWorlds(), TailEvents(), 4, 4)
    ensures forall k :: 0 <= k < 13 ==> Honest(TailWorlds()[k], TailEvents()[k])
    ensures var w := TailWorlds()[13];
            && w.send.IsComplete() && w.send.data == [] && w.flight == [] && w.written == [1, 2, 3, 4]
            && !Reached(w.recv, 3)
  {
    hide Inv, Does, TailWorld, TailEvent, Honest, Reached;
    forall k: nat | k < 13
      ensures Goes(TailWorld(k), TailEvent(k), TailWorld(k + 1)) && Honest(TailWorld(k), TailEvent(k))
    {
      TailGoes(k);
      TailHonest(k);
    }
    TailEnd();
    var ws, es := TailWorlds(), TailEvents();
    forall k | 0 <= k < |es|
      ensures ws[k].send.off <= ws[k].send.maxData && ws[k].recv.Valid() && Does(ws[k], es[k], ws[k + 1])
    {
      assert ws[k] == TailWorld(k) && es[k] == TailEvent(k) && ws[k + 1] == TailWorld(k + 1);
    }
  }
}
