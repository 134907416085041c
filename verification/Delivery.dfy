/** One stream end to end: a send buffer, a network that drops, repeats and reorders
    frames, and a receive buffer, with flow-control updates and deadline cancels. */
module Delivery {
  import opened Prelude
  import opened Chunks
  import opened ChunkHeap
  import opened RangeSets
  import opened RecvSpec
  import opened SendSpec

  /** `written` is what the send buffer has accepted and `delivered` what the receive
      buffer has handed out. `flight` are the frames neither acknowledged nor lost yet, and
      `failed` records that a lost one was not queued again; `net`, `limits` and
      `resets` are the STREAM, MAX_STREAM_DATA and RESET_STREAM frames ever sent: any of
      them may arrive, in any order, any number of times. `received` are those STREAM frames
      that did. */
  datatype World = World(send: Send, written: seq<byte>, flight: seq<RangeBuf>, failed: bool,
                         net: set<RangeBuf>, limits: set<nat>, resets: set<nat>,
                         recv: Recv, delivered: seq<byte>, received: set<RangeBuf>)

  datatype Event =
    | Write(data: seq<byte>, fin: bool)
    | Transmit(max: nat, frame: RangeBuf)
    | Acked(i: nat)
    | Lost(i: nat)
    | Discard(i: nat)
    | Receive(frame: RangeBuf, orders: seq<seq<RangeBuf>>, r: Result<()>)
    | Read(cap: nat, out: seq<byte>)
    | IssueLimit
    | LearnLimit(max: nat)
    | Cancel
    | SendReset
    | ReceiveReset(finalSize: nat)
    | StopReading

  function Start(sendWindow: nat, recvWindow: nat): World {
    World(SendSpec.Fresh(sendWindow), [], [], false, {}, {}, {}, Initial(recvWindow), [], {})
  }

  /** A lost frame that the send buffer refuses is dropped, and it takes along the frames that
      were reported lost after it, those of other streams too (`Discard`); everything else
      goes on. */
  ghost predicate Does(w: World, e: Event, w': World)
    requires w.send.off <= w.send.maxData && w.recv.Valid()
  {
    match e
    case Write(data, fin) =>
      (match Written(w.send, data, fin)
       case Err(_) => w' == w
       case Ok((n, post)) =>
         w' == w.(send := post, written := if w.send.shutdown then w.written else w.written + data[..n]))
    case Transmit(max, out) =>
      && Taken(w.send, max, out, w'.send)
      && w' == if out.data == [] && !out.fin then w.(send := w'.send)
               else w.(send := w'.send, net := w.net + {out}, flight := w.flight + [out])
    case Acked(i) =>
      && i < |w.flight|
      && var f := w.flight[i];
         w' == w.(flight := Without(w.flight, i),
                  send := w.send.(acked := Inserted(w.send.acked, Range(f.off, f.MaxOff()))))
    case Lost(i) =>
      && i < |w.flight|
      && (match Queued(w.send, w.flight[i])
          case Err(_) => w' == w.(flight := Without(w.flight, i), failed := true)
          case Ok(post) => w' == w.(flight := Without(w.flight, i), send := post))
    case Discard(i) =>
      i < |w.flight| && w' == w.(flight := Without(w.flight, i), failed := true)
    case Receive(b, orders, r) =>
      && b in w.net && Pushed(w.recv, b, orders, r, w'.recv)
      && w' == w.(recv := w'.recv, received := if r.Ok? then w.received + {b} else w.received)
    case Read(cap, out) =>
      && w.recv.Ready() && Popped(w.recv, cap, out, w'.recv)
      && w' == w.(recv := w'.recv, delivered := w.delivered + out)
    case IssueLimit =>
      w' == w.(recv := Committed(w.recv), limits := w.limits + {w.recv.maxDataNext})
    case LearnLimit(max) =>
      max in w.limits && w' == w.(send := w.send.(maxData := Max(w.send.maxData, max)))
    case Cancel =>
      !w.send.shutdown && w' == w.(send := w.send.(shutdown := true, data := []))
    case SendReset =>
      w.send.shutdown && w' == w.(resets := w.resets + {w.send.BlockSize()})
    case ReceiveReset(size) =>
      && size in w.resets
      && (match Shut(w.recv)
          case Err(_) => w' == w
          case Ok(drained) =>
            w' == w.(recv := if ResetTo(drained, size).Ok? then ResetTo(drained, size).value.1 else drained))
    case StopReading =>
      w' == if Shut(w.recv).Ok? then w.(recv := Shut(w.recv).value) else w
  }

  // ---------- the invariant ----------

  /** The bytes of the frame are the bytes written at its offsets, and its `fin` flag
      marks the final offset. */
  ghost predicate Faithful(b: RangeBuf, finOff: Option<nat>, written: seq<byte>) {
    && b.MaxOff() <= |written|
    && (forall x :: b.Covers(x) ==> b.At(x) == written[x])
    && (b.fin ==> finOff == Some(b.MaxOff()))
  }

  ghost predicate Matches(bag: seq<RangeBuf>, written: seq<byte>) {
    forall x, v :: Holds(bag, x, v) ==> x < |written| && written[x] == v
  }

  /** No written byte is in two places: queued, in flight, or acknowledged; and as long as
      all of them are kept (`whole`), every byte is in one. */
  ghost predicate Ledger(s: Send, flight: seq<RangeBuf>, whole: bool) {
    && (whole ==> forall x :: 0 <= x < s.off ==> Has(s.data, x) || Has(flight, x) || Member(s.acked, x))
    && (forall x :: !(Has(s.data, x) && Has(flight, x)))
    && (forall x :: !(Has(s.data, x) && Member(s.acked, x)))
    && (forall x :: !(Has(flight, x) && Member(s.acked, x)))
    && (forall i, j, x :: 0 <= i < j < |flight| ==> !(flight[i].Covers(x) && flight[j].Covers(x)))
  }

  ghost predicate SendInv(w: World) {
    && w.send.Valid() && |w.written| == w.send.off
    && Matches(w.send.data, w.written)
    && (forall f :: f in w.flight ==> f in w.net)
    && (!w.send.shutdown ==> Ledger(w.send, w.flight, !w.failed))
  }

  ghost predicate NetInv(w: World) {
    && (forall b :: b in w.net ==> Faithful(b, w.send.finOff, w.written) && b.MaxOff() <= w.send.maxData)
    && (forall f :: f in w.resets ==> w.send.shutdown && f == w.send.off)
    && w.send.maxData <= w.recv.maxData
    && (forall m :: m in w.limits ==> m <= w.recv.maxData)
  }

  ghost predicate RecvInv(w: World) {
    && w.recv.Valid() && w.recv.len <= |w.written|
    && Matches(w.recv.data, w.written)
    && w.delivered == w.written[..w.recv.off]
    && (w.recv.finOff.Some? ==> w.recv.finOff.value == w.send.off && (w.send.finOff.Some? || w.send.shutdown))
  }

  ghost predicate Inv(w: World) {
    |w.written| == w.send.off && SendInv(w) && NetInv(w) && RecvInv(w)
  }

  lemma StartInv(sendWindow: nat, recvWindow: nat)
    requires sendWindow <= recvWindow <= U64_MAX
    ensures Inv(Start(sendWindow, recvWindow))
  {
  }

  // ---------- the receiver never objects ----------

  /** No frame of this sender violates the receiver's limits or its final size. */
  lemma ReceiverAccepts(w: World, b: RangeBuf)
    requires Inv(w) && b in w.net
    ensures PushError(w.recv, b).None?
  {
    assert Faithful(b, w.send.finOff, w.written);
  }

  lemma ReceiverAcceptsReset(w: World, size: nat)
    requires Inv(w) && size in w.resets && Shut(w.recv).Ok?
    ensures ResetTo(Shut(w.recv).value, size).Ok?
  {
  }

  // ---------- steps of the receiver ----------

  lemma AddedMatches(s: Recv, b: RangeBuf, post: Recv, written: seq<byte>)
    requires Extends(s.data, post.data, s.off, b) && Matches(s.data, written)
    requires forall x :: b.Covers(x) ==> x < |written| && b.At(x) == written[x]
    ensures Matches(post.data, written)
  {
    forall x, v | Holds(post.data, x, v)
      ensures x < |written| && written[x] == v
    {
      var added := post.data[|s.data|..];
      if !Holds(s.data, x, v) {
        assert post.data == s.data + added;
        var c :| c in added && c.Covers(x) && c.At(x) == v;
        assert Within(c, b) && b.Covers(x);
      }
    }
  }

  /** What a push that is not refused changes. */
  lemma PushChanges(s: Recv, b: RangeBuf, orders: seq<seq<RangeBuf>>, r: Result<()>, post: Recv)
    requires s.Valid() && Pushed(s, b, orders, r, post) && PushError(s, b).None?
    ensures r == Ok(()) && post.Valid() && Extends(s.data, post.data, s.off, b)
    ensures post == s.(data := post.data, len := post.len, finOff := FinAfter(s, b))
    ensures post.len <= Max(s.len, b.MaxOff())
  {
    hide Extends;
    PushSound(s, b, orders, r, post);
    if !Ignored(s, b) {
      FillSound(Store(s.data, s.len), s.off, b, orders, Store(post.data, post.len), FinAfter(s, b));
    }
  }

  lemma ReceiveKeeps(w: World, b: RangeBuf, orders: seq<seq<RangeBuf>>, r: Result<()>, w': World)
    requires Inv(w) && Does(w, Receive(b, orders, r), w')
    ensures Inv(w') && r == Ok(())
  {
    hide Extends, Matches, Pushed, PushError, ValidChunks;
    ReceiverAccepts(w, b);
    PushChanges(w.recv, b, orders, r, w'.recv);
    assert Faithful(b, w.send.finOff, w.written);
    AddedMatches(w.recv, b, w'.recv, w.written);
  }

  lemma ReadKeeps(w: World, cap: nat, out: seq<byte>, w': World)
    requires Inv(w) && Does(w, Read(cap, out), w')
    ensures Inv(w')
  {
    forall k | 0 <= k < |out|
      ensures w.recv.off + k < |w.written| && out[k] == w.written[w.recv.off + k]
    {
      assert Holds(w.recv.data, w.recv.off + k, out[k]);
    }
    assert w.recv.off + |out| <= w.recv.len;
    assert w.written[..w'.recv.off] == w.written[..w.recv.off] + out;
  }

  // ---------- steps of the sender ----------

  lemma WriteKeeps(w: World, data: seq<byte>, fin: bool, w': World)
    requires Inv(w) && Does(w, Write(data, fin), w')
    ensures Inv(w')
  {
    if Written(w.send, data, fin).Ok? && !w.send.shutdown {
      WriteKeepsSend(w, data, fin, w');
      WriteKeepsNet(w, data, fin, w');
      var n := Written(w.send, data, fin).value.0;
      MatchesLonger(w.recv.data, w.written, data[..n]);
      WriteAppends(w.send, data, fin);
    }
  }

  lemma WriteKeepsSend(w: World, data: seq<byte>, fin: bool, w': World)
    requires Inv(w) && Does(w, Write(data, fin), w') && Written(w.send, data, fin).Ok? && !w.send.shutdown
    ensures SendInv(w')
  {
    WriteAppends(w.send, data, fin);
    var (n, post) := Written(w.send, data, fin).value;
    assert forall f :: f in w.flight ==> f.MaxOff() <= w.send.off by {
      assert forall f :: f in w.flight ==> Faithful(f, w.send.finOff, w.written);
    }
    WriteLedger(w.send, data, n, post, w.flight, !w.failed);
    WriteMatches(w.send, data, n, post, w.written);
  }

  lemma WriteKeepsNet(w: World, data: seq<byte>, fin: bool, w': World)
    requires Inv(w) && Does(w, Write(data, fin), w') && Written(w.send, data, fin).Ok? && !w.send.shutdown
    ensures NetInv(w')
  {
    WriteAppends(w.send, data, fin);
    forall b | b in w'.net
      ensures Faithful(b, w'.send.finOff, w'.written)
    {
      assert Faithful(b, w.send.finOff, w.written);
    }
  }

  lemma MatchesLonger(bag: seq<RangeBuf>, written: seq<byte>, more: seq<byte>)
    requires Matches(bag, written)
    ensures Matches(bag, written + more)
  {
  }

  lemma WriteMatches(s: Send, data: seq<byte>, n: nat, post: Send, written: seq<byte>)
    requires Matches(s.data, written) && |written| == s.off && n <= |data|
    requires forall x, v :: Holds(post.data, x, v) <==>
               Holds(s.data, x, v) || (s.off <= x < s.off + n && data[x - s.off] == v)
    ensures Matches(post.data, written + data[..n])
  {
  }

  /** New bytes go to the queue; all the others stay where they are. */
  lemma WriteLedger(s: Send, data: seq<byte>, n: nat, post: Send, flight: seq<RangeBuf>, whole: bool)
    requires s.Valid() && Ledger(s, flight, whole) && post.acked == s.acked && post.off == s.off + n && n <= |data|
    requires forall x, v :: Holds(post.data, x, v) <==>
               Holds(s.data, x, v) || (s.off <= x < s.off + n && data[x - s.off] == v)
    requires forall f :: f in flight ==> f.MaxOff() <= s.off
    ensures Ledger(post, flight, whole)
  {
    forall x
      ensures Has(post.data, x) <==> Has(s.data, x) || s.off <= x < s.off + n
    {
      HasIsHolds(post.data, x);
      HasIsHolds(s.data, x);
      if s.off <= x < s.off + n {
        assert Holds(post.data, x, data[x - s.off]);
      }
    }
  }

  lemma TransmitKeeps(w: World, max: nat, out: RangeBuf, w': World)
    requires Inv(w) && Does(w, Transmit(max, out), w')
    ensures Inv(w')
  {
    forall x | out.Covers(x)
      ensures x < |w.written| && out.At(x) == w.written[x]
    {
      assert Stores(out, x, out.At(x));
      assert Holds(w.send.data, x, out.At(x));
    }
    assert out.MaxOff() <= w.send.off by {
      if out.data != [] {
        assert out.Covers(out.MaxOff() - 1);
      }
    }
    if out.data != [] || out.fin {
      assert Faithful(out, w'.send.finOff, w'.written);
    }
    if !w.send.shutdown {
      TransmitLedger(w.send, out, w'.send, w.flight, w'.flight, !w.failed);
    }
  }

  lemma TransmitLedger(s: Send, out: RangeBuf, post: Send, flight: seq<RangeBuf>, flight': seq<RangeBuf>, whole: bool)
    requires s.Valid() && Ledger(s, flight, whole) && post == s.(data := post.data, len := post.len)
    requires forall x, v :: Holds(s.data, x, v) <==> Holds(post.data, x, v) || Stores(out, x, v)
    requires forall x :: out.Covers(x) ==> !Has(post.data, x)
    requires flight' == flight + [out] || (out.data == [] && flight' == flight)
    ensures Ledger(post, flight', whole)
  {
    forall x
      ensures Has(s.data, x) <==> Has(post.data, x) || out.Covers(x)
    {
      HasIsHolds(post.data, x);
      HasIsHolds(s.data, x);
      if out.Covers(x) {
        assert Stores(out, x, out.At(x));
      }
    }
    assert forall f :: f in flight' ==> f in flight || f == out;
    assert forall f :: f in flight ==> f in flight';
    forall i, j, x | 0 <= i < j < |flight'|
      ensures !(flight'[i].Covers(x) && flight'[j].Covers(x))
    {
      if flight' == flight + [out] && j == |flight| && flight'[i].Covers(x) {
        assert flight[i] in flight && Has(flight, x);
      }
    }
  }

  /** Taking frame `i` out of flight. */
  lemma FlightParts(flight: seq<RangeBuf>, i: nat, x: int)
    requires i < |flight|
    requires forall i, j, x :: 0 <= i < j < |flight| ==> !(flight[i].Covers(x) && flight[j].Covers(x))
    ensures Has(flight, x) <==> flight[i].Covers(x) || Has(Without(flight, i), x)
    ensures !(flight[i].Covers(x) && Has(Without(flight, i), x))
  {
    var rest := Without(flight, i);
    WithoutChunk(flight, i);
    if Has(rest, x) {
      var k :| 0 <= k < |rest| && rest[k].Covers(x);
      var j := if k < i then k else k + 1;
      assert rest[k] == flight[j];
    }
  }

  lemma InFlight(w: World, i: nat)
    requires Inv(w) && i < |w.flight|
    ensures var f := w.flight[i];
            f in w.net && Faithful(f, w.send.finOff, w.written) && f.MaxOff() <= w.send.off
    ensures forall f :: f in Without(w.flight, i) ==> f in w.net
  {
    assert w.flight[i] in w.flight && w.flight[i] in w.net;
    WithoutChunk(w.flight, i);
  }

  lemma AckedLedger(s: Send, flight: seq<RangeBuf>, i: nat, whole: bool)
    requires s.Valid() && Ledger(s, flight, whole) && i < |flight|
    ensures var f := flight[i];
            Ledger(s.(acked := Inserted(s.acked, Range(f.off, f.MaxOff()))), Without(flight, i), whole)
  {
    var f := flight[i];
    var item := Range(f.off, f.MaxOff());
    forall x
      ensures Has(flight, x) <==> f.Covers(x) || Has(Without(flight, i), x)
      ensures !(f.Covers(x) && Has(Without(flight, i), x))
      ensures Member(Inserted(s.acked, item), x) <==> Member(s.acked, x) || f.Covers(x)
    {
      FlightParts(flight, i, x);
      InsertedIsUnion(s.acked, item, x);
    }
    StillDistinct(flight, i);
  }

  lemma StillDistinct(flight: seq<RangeBuf>, i: nat)
    requires i < |flight|
    requires forall i, j, x :: 0 <= i < j < |flight| ==> !(flight[i].Covers(x) && flight[j].Covers(x))
    ensures var rest := Without(flight, i);
            forall i, j, x :: 0 <= i < j < |rest| ==> !(rest[i].Covers(x) && rest[j].Covers(x))
  {
    var rest := Without(flight, i);
    forall a, b, x | 0 <= a < b < |rest|
      ensures !(rest[a].Covers(x) && rest[b].Covers(x))
    {
      assert rest[a] == flight[if a < i then a else a + 1] && rest[b] == flight[if b < i then b else b + 1];
    }
  }

  lemma AckedKeeps(w: World, i: nat, w': World)
    requires Inv(w) && Does(w, Acked(i), w')
    ensures Inv(w')
  {
    hide Faithful, Matches, Ledger, Inserted, Canonical, Without;
    var f := w.flight[i];
    var item := Range(f.off, f.MaxOff());
    InFlight(w, i);
    InsertedCanonical(w.send.acked, item);
    InsertedBounded(w.send.acked, item, w.send.off);
    if !w.send.shutdown {
      AckedLedger(w.send, w.flight, i, !w.failed);
    }
  }

  /** Dropping a frame leaves no byte in two places. */
  lemma DroppedLedger(s: Send, flight: seq<RangeBuf>, i: nat, whole: bool)
    requires Ledger(s, flight, whole) && i < |flight|
    ensures Ledger(s, Without(flight, i), false)
  {
    forall x
      ensures Has(Without(flight, i), x) ==> Has(flight, x)
    {
      FlightParts(flight, i, x);
    }
    StillDistinct(flight, i);
  }

  lemma DiscardKeeps(w: World, i: nat, w': World)
    requires Inv(w) && i < |w.flight| && w' == w.(flight := Without(w.flight, i), failed := true)
    ensures Inv(w')
  {
    hide Faithful, Matches, Ledger, Without;
    InFlight(w, i);
    if !w.send.shutdown {
      DroppedLedger(w.send, w.flight, i, !w.failed);
    }
  }

  /** A lost frame goes back to the queue whole: none of it was acknowledged. */
  lemma LostKeeps(w: World, i: nat, w': World)
    requires Inv(w) && Does(w, Lost(i), w')
    ensures Inv(w')
  {
    hide Faithful, Matches, Ledger, Without, Queued;
    InFlight(w, i);
    if Queued(w.send, w.flight[i]).Err? {
      DiscardKeeps(w, i, w');
    } else if w.send.shutdown {
      ShutKeepsQueue(w.send, w.flight[i]);
    } else {
      LostLedger(w.send, w.flight, i, w'.send, w.written, !w.failed);
    }
  }

  lemma ShutKeepsQueue(s: Send, f: RangeBuf)
    requires s.Valid() && s.shutdown && Queued(s, f).Ok?
    ensures Queued(s, f).value == s
  {
  }

  lemma LostLedger(s: Send, flight: seq<RangeBuf>, i: nat, post: Send, written: seq<byte>, whole: bool)
    requires s.Valid() && Ledger(s, flight, whole) && !s.shutdown && i < |flight| && Queued(s, flight[i]) == Ok(post)
    requires |written| == s.off && Faithful(flight[i], s.finOff, written) && Matches(s.data, written)
    ensures post.Valid() && Ledger(post, Without(flight, i), whole) && Matches(post.data, written)
    ensures post == s.(data := post.data, len := post.len)
  {
    var f := flight[i];
    LostIsQueued(s, flight, i, whole);
    forall x, v
      ensures Holds(post.data, x, v) <==> Holds(s.data, x, v) || Stores(f, x, v)
    {
      if f.data != [] {
        HoldsParts(post.data, f, s.data, x, v);
      }
    }
    forall x
      ensures Has(flight, x) <==> f.Covers(x) || Has(Without(flight, i), x)
      ensures !(f.Covers(x) && Has(Without(flight, i), x))
      ensures Has(post.data, x) <==> Has(s.data, x) || f.Covers(x)
    {
      FlightParts(flight, i, x);
      HasIsHolds(post.data, x);
      HasIsHolds(s.data, x);
      if f.Covers(x) {
        assert Stores(f, x, f.At(x));
      }
    }
    WithoutChunk(flight, i);
    LedgerMoves(s, flight, i, post, whole);
  }

  /** A frame in flight that is lost is queued unless it is empty. */
  lemma LostIsQueued(s: Send, flight: seq<RangeBuf>, i: nat, whole: bool)
    requires s.Valid() && Ledger(s, flight, whole) && !s.shutdown && i < |flight| && Queued(s, flight[i]).Ok?
    requires flight[i].MaxOff() <= s.off && (flight[i].fin ==> s.finOff == Some(flight[i].MaxOff()))
    ensures var f, post := flight[i], Queued(s, flight[i]).value;
            && post.Valid()
            && post == if f.data == [] then s else s.(data := s.data + [f], len := s.len + |f.data|)
  {
    var f := flight[i];
    AckOffIsContiguous(s.acked);
    if f.data != [] {
      assert f in flight && f.Covers(f.off);
      assert Has(flight, f.off) && !Member(s.acked, f.off);
      forall x | f.Covers(x)
        ensures !Has(s.data, x)
      {
        assert Has(flight, x);
      }
      RequeueValid(s.data, f, s.off);
    }
  }

  lemma LedgerMoves(s: Send, flight: seq<RangeBuf>, i: nat, post: Send, whole: bool)
    requires Ledger(s, flight, whole) && i < |flight| && post.acked == s.acked && post.off == s.off
    requires forall x :: Has(flight, x) <==> flight[i].Covers(x) || Has(Without(flight, i), x)
    requires forall x :: !(flight[i].Covers(x) && Has(Without(flight, i), x))
    requires forall x :: Has(post.data, x) <==> Has(s.data, x) || flight[i].Covers(x)
    ensures Ledger(post, Without(flight, i), whole)
  {
    StillDistinct(flight, i);
  }

  /** Chunks that share no byte can be queued together. */
  lemma RequeueValid(queue: seq<RangeBuf>, f: RangeBuf, end: nat)
    requires ValidChunks(queue, 0, end, None) && f.data != [] && f.MaxOff() <= end
    requires forall x :: f.Covers(x) ==> !Has(queue, x)
    ensures ValidChunks(queue + [f], 0, end, None) && Bytes(queue + [f]) == Bytes(queue) + |f.data|
  {
    BytesAppend(queue, f);
    forall b | b in queue
      ensures Separate(b, f) && b.off != f.off
    {
      assert f.Covers(f.off) && b.Covers(b.off);
      assert f.Covers(b.off) ==> !Has(queue, b.off);
    }
    AppendApart(queue, f);
  }

  /** Limits, cancels and resets. */
  lemma ControlKeeps(w: World, e: Event, w': World)
    requires Inv(w) && Does(w, e, w')
    requires e.IssueLimit? || e.LearnLimit? || e.Cancel? || e.SendReset? || e.ReceiveReset? || e.StopReading?
    ensures Inv(w')
  {
    if e.IssueLimit? || e.ReceiveReset? || e.StopReading? {
      ReceiverControlKeeps(w, e, w');
    } else {
      hide Faithful, Matches, ValidChunks, Canonical;
    }
  }

  /** Limits, resets and stops at the receiver. */
  lemma ReceiverControlKeeps(w: World, e: Event, w': World)
    requires Inv(w) && Does(w, e, w') && (e.IssueLimit? || e.ReceiveReset? || e.StopReading?)
    ensures Inv(w')
  {
    LimitsKeepValid(w.recv, w.send.off);
    if e.ReceiveReset? && Shut(w.recv).Ok? {
      ReceiverAcceptsReset(w, e.finalSize);
      LimitsKeepValid(Shut(w.recv).value, w.send.off);
    }
    hide Faithful, Ledger, ValidChunks, Canonical, Recv.Valid;
  }

  lemma StepKeeps(w: World, e: Event, w': World)
    requires Inv(w) && Does(w, e, w')
    ensures Inv(w')
  {
    match e
    case Write(data, fin) => WriteKeeps(w, data, fin, w');
    case Transmit(max, out) => TransmitKeeps(w, max, out, w');
    case Acked(i) => AckedKeeps(w, i, w');
    case Lost(i) => LostKeeps(w, i, w');
    case Discard(i) => DiscardKeeps(w, i, w');
    case Receive(b, orders, r) => ReceiveKeeps(w, b, orders, r, w');
    case Read(cap, out) => ReadKeeps(w, cap, out, w');
    case _ => ControlKeeps(w, e, w');
  }

  // ---------- whole runs ----------

  /** The states `ws` arise from the events `es`, one after the other. */
  ghost predicate Run(ws: seq<World>, es: seq<Event>, sendWindow: nat, recvWindow: nat) {
    && |ws| == |es| + 1 && ws[0] == Start(sendWindow, recvWindow)
    && forall k :: 0 <= k < |es| ==>
         ws[k].send.off <= ws[k].send.maxData && ws[k].recv.Valid() && Does(ws[k], es[k], ws[k + 1])
  }

  lemma {:induction false} RunInv(ws: seq<World>, es: seq<Event>, sendWindow: nat, recvWindow: nat, k: nat)
    requires Run(ws, es, sendWindow, recvWindow) && sendWindow <= recvWindow <= U64_MAX && k < |ws|
    ensures Inv(ws[k])
  {
    hide Inv, Does;
    if k == 0 {
      StartInv(sendWindow, recvWindow);
    } else {
      RunInv(ws, es, sendWindow, recvWindow, k - 1);
      assert Does(ws[k - 1], es[k - 1], ws[k]);
      StepKeeps(ws[k - 1], es[k - 1], ws[k]);
    }
  }

  /** What the receiver hands out is a prefix of what the sender accepted, and once it
      reports the end of the stream it has handed out all of it. */
  lemma DeliveredIsPrefix(ws: seq<World>, es: seq<Event>, sendWindow: nat, recvWindow: nat, k: nat)
    requires Run(ws, es, sendWindow, recvWindow) && sendWindow <= recvWindow <= U64_MAX && k < |ws|
    ensures ws[k].delivered <= ws[k].written
    ensures ws[k].recv.IsFin() ==> ws[k].delivered == ws[k].written
  {
    RunInv(ws, es, sendWindow, recvWindow, k);
  }

  /** Until the sending side is shut down, every byte accepted is in at most one place:
      queued, in flight, or acknowledged; in exactly one unless a re-queued frame was
      refused; and `len` counts the queued ones. */
  lemma EveryByteInOnePlace(ws: seq<World>, es: seq<Event>, sendWindow: nat, recvWindow: nat, k: nat, x: nat)
    requires Run(ws, es, sendWindow, recvWindow) && sendWindow <= recvWindow <= U64_MAX && k < |ws|
    requires !ws[k].send.shutdown && x < |ws[k].written|
    ensures var w := ws[k];
            var places := multiset([Has(w.send.data, x), Has(w.flight, x), Member(w.send.acked, x)])[true];
            places <= 1 && (!w.failed ==> places == 1) && w.send.len == Bytes(w.send.data)
  {
    RunInv(ws, es, sendWindow, recvWindow, k);
    assert Ledger(ws[k].send, ws[k].flight, !ws[k].failed);
  }

  /** In no run does the receiver report an error against this sender. */
  lemma NeverRefused(ws: seq<World>, es: seq<Event>, sendWindow: nat, recvWindow: nat, k: nat)
    requires Run(ws, es, sendWindow, recvWindow) && sendWindow <= recvWindow <= U64_MAX && k < |es|
    ensures es[k].Receive? ==> es[k].r == Ok(())
    ensures es[k].ReceiveReset? && Shut(ws[k].recv).Ok? ==> ResetTo(Shut(ws[k].recv).value, es[k].finalSize).Ok?
  {
    RunInv(ws, es, sendWindow, recvWindow, k);
    assert Does(ws[k], es[k], ws[k + 1]);
    match es[k]
    case Receive(b, orders, r) => ReceiveKeeps(ws[k], b, orders, r, ws[k + 1]);
    case ReceiveReset(size) =>
      if Shut(ws[k].recv).Ok? {
        ReceiverAcceptsReset(ws[k], size);
      }
    case _ =>
  }

  // ---------- completion ----------

  lemma FirstBytes(bag: seq<RangeBuf>)
    ensures forall b :: b in bag && b.data != [] ==> Has(bag, b.off)
  {
    forall b | b in bag && b.data != []
      ensures Has(bag, b.off)
    {
      assert b.Covers(b.off);
    }
  }

  /** A non-empty stream that was not shut down is complete exactly when its final size
      is known and no byte is queued or in flight. */
  lemma CompleteIff(w: World)
    requires Inv(w) && !w.failed && !w.send.shutdown && w.send.off > 0
    ensures w.send.IsComplete() <==>
              w.send.finOff.Some? && w.send.data == [] && forall f :: f in w.flight ==> f.data == []
  {
    var s := w.send;
    EqualsRangeIff(s.acked, s.off);
    FirstBytes(s.data);
    FirstBytes(w.flight);
    assert s.data != [] ==> s.data[0] in s.data;
    if s.IsComplete() {
      assert forall x :: 0 <= x < s.off ==> Member(s.acked, x);
      assert forall f :: f in w.flight ==> Faithful(f, s.finOff, w.written);
    }
    if s.finOff.Some? && s.data == [] && forall f :: f in w.flight ==> f.data == [] {
      forall x | 0 <= x < s.off
        ensures Member(s.acked, x)
      {
        assert !Has(s.data, x);
        assert !Has(w.flight, x);
      }
      assert s.acked == [Range(0, s.off)];
    }
  }

  // ---------- the refused retransmission ----------

  /** A frame in flight is refused when it ends at the final offset without saying so. */
  ghost predicate Refused(finOff: Option<nat>, f: RangeBuf) {
    finOff == Some(f.MaxOff()) && !f.fin
  }

  ghost predicate NoneRefused(finOff: Option<nat>, flight: seq<RangeBuf>) {
    forall f :: f in flight ==> !Refused(finOff, f)
  }

  /** An empty write that ends the stream while its last byte is in flight. */
  ghost predicate LateFin(w: World, e: Event) {
    && e.Write? && e.fin && e.data == []
    && w.send.finOff.None? && !w.send.shutdown
    && exists f :: f in w.flight && f.MaxOff() == w.send.off
  }

  lemma RequeueRefusedIff(w: World, i: nat)
    requires Inv(w) && i < |w.flight|
    ensures Queued(w.send, w.flight[i]).Err? <==> Refused(w.send.finOff, w.flight[i])
  {
    InFlight(w, i);
  }

  lemma RefusalAtWrite(w: World, data: seq<byte>, fin: bool, w': World)
    requires Inv(w) && Does(w, Write(data, fin), w')
    requires NoneRefused(w.send.finOff, w.flight)
    ensures !NoneRefused(w'.send.finOff, w'.flight) <==> LateFin(w, Write(data, fin))
  {
    assert forall f :: f in w.flight ==> Faithful(f, w.send.finOff, w.written);
    if Written(w.send, data, fin).Ok? {
      WriteAppends(w.send, data, fin);
    }
    if LateFin(w, Write(data, fin)) {
      var f :| f in w.flight && f.MaxOff() == w.send.off;
      assert Refused(w'.send.finOff, f);
    }
  }

  lemma RefusalNotAtSend(w: World, max: nat, out: RangeBuf, w': World)
    requires Inv(w) && Does(w, Transmit(max, out), w')
    requires NoneRefused(w.send.finOff, w.flight)
    ensures NoneRefused(w'.send.finOff, w'.flight)
  {
  }

  lemma QueuedKeepsFin(w: World, i: nat)
    requires Inv(w) && i < |w.flight|
    ensures Queued(w.send, w.flight[i]).Ok? ==> Queued(w.send, w.flight[i]).value.finOff == w.send.finOff
  {
    InFlight(w, i);
  }

  /** A step makes some frame in flight un-requeueable exactly when it is a late end of
      stream. */
  lemma RefusalArisesIff(w: World, e: Event, w': World)
    requires Inv(w) && Does(w, e, w')
    requires NoneRefused(w.send.finOff, w.flight)
    ensures !NoneRefused(w'.send.finOff, w'.flight) <==> LateFin(w, e)
  {
    hide Inv, Without, Pushed, Popped, Taken, Queued;
    match e
    case Write(data, fin) => RefusalAtWrite(w, data, fin, w');
    case Transmit(max, out) => RefusalNotAtSend(w, max, out, w');
    case Acked(i) => WithoutChunk(w.flight, i);
    case Lost(i) =>
      WithoutChunk(w.flight, i);
      QueuedKeepsFin(w, i);
    case Discard(i) => WithoutChunk(w.flight, i);
    case _ =>
  }

  /** A frame is dropped with one of another stream that was refused. */
  ghost predicate TakenAlong(w: World, e: Event) {
    e.Discard? && !w.failed
  }

  /** A run fails only after a late end of stream, on this stream or on another one whose
      refused frame takes one of this stream along. */
  lemma {:induction false} FailsOnlyAfterLateFin(ws: seq<World>, es: seq<Event>, sendWindow: nat, recvWindow: nat, k: nat)
    requires Run(ws, es, sendWindow, recvWindow) && sendWindow <= recvWindow <= U64_MAX && k < |ws|
    requires forall j :: 0 <= j < k ==> !LateFin(ws[j], es[j]) && !TakenAlong(ws[j], es[j])
    ensures !ws[k].failed && NoneRefused(ws[k].send.finOff, ws[k].flight)
  {
    if k > 0 {
      FailsOnlyAfterLateFin(ws, es, sendWindow, recvWindow, k - 1);
      RunInv(ws, es, sendWindow, recvWindow, k - 1);
      var w, e := ws[k - 1], es[k - 1];
      assert Does(w, e, ws[k]);
      if e.Lost? {
        RequeueRefusedIff(w, e.i);
        assert w.flight[e.i] in w.flight;
      }
      RefusalArisesIff(w, e, ws[k]);
    }
  }
}
