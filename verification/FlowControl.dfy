/** Connection-level receive credit (src/lib.rs, the STREAM, RESET_STREAM and limit-update
    steps): how much unread data a peer can make this endpoint hold. */
module FlowControl {
  import opened Prelude
  import opened Chunks
  import opened ChunkHeap
  import opened Limits
  import opened RecvSpec

  /** `windows` are the initial limits of the streams ever opened and `read` the number of bytes
      handed to the application; neither exists in the source. `almostFull` are the streams to
      be sent a new limit, and `closed` is the error state. */
  datatype Conn = Conn(rxData: nat, maxRxData: nat, maxRxDataNext: nat, streams: map<nat, Recv>,
                       windows: map<nat, nat>, almostFull: set<nat>, read: nat, closed: bool)

  datatype Event =
    | Open(id: nat, window: nat)
    | StreamFrame(id: nat, data: RangeBuf, orders: seq<seq<RangeBuf>>, r: Result<()>)
    | ResetFrame(id: nat, finalSize: nat, missedDeadline: bool)
    | ReadStream(id: nat, cap: nat, out: seq<byte>)
    | CommitConnection
    | CommitStream(id: nat)
    | StopReading(id: nat)
    | Collect(id: nat)

  function Start(window: nat): Conn {
    Conn(0, window, window, map[], map[], {}, 0, false)
  }

  function Updated(c: Conn, id: nat, s: Recv): Conn {
    c.(streams := c.streams[id := s])
  }

  /** The RESET_STREAM step; error code 1 announces a missed deadline and drains the stream
      first, which fails when that was done before. */
  function AfterReset(c: Conn, id: nat, finalSize: nat, missedDeadline: bool): Result<Conn>
    requires id in c.streams
  {
    var s :- if missedDeadline then Shut(c.streams[id]) else Ok(c.streams[id]);
    var (credit, t) :- ResetTo(s, finalSize);
    var d := Updated(c, id, t).(rxData := c.rxData + credit);
    if d.rxData > d.maxRxData then Err(FlowControl) else Ok(d)
  }

  /** What a reset answers, and what it charges: with the reset every byte up to the final size has
      been charged to the connection, those that never arrived as well. */
  lemma ResetAccounted(c: Conn, id: nat, size: nat, missed: bool)
    requires id in c.streams && c.streams[id].Valid()
    ensures var r, s := AfterReset(c, id, size, missed), c.streams[id];
            var agrees := Agrees(s, RangeBuf([], size, true), size);
            && (r == Err(Done) <==> missed && s.drain)
            && (r == Err(FinalSize) <==> !(missed && s.drain) && !agrees)
            && (r == Err(FlowControl) <==> !(missed && s.drain) && agrees && c.rxData + size > c.maxRxData + s.len)
            && (r.Err? ==> r.error in {Done, FinalSize, FlowControl})
            && (r.Ok? ==>
                  && id in r.value.streams && var d, t := r.value, r.value.streams[id];
                  && d.rxData + s.len == c.rxData + size
                  && d == c.(streams := c.streams[id := t], rxData := d.rxData)
                  && t == s.(finOff := Some(size), drain := s.drain || missed, data := if missed then [] else s.data))
  {
  }

  /** A stream is marked for an update when it is read, and the mark goes when the limit is
      committed. A frame for a stream that was collected is ignored, so it is no event here. */
  ghost predicate Does(c: Conn, e: Event, c': Conn)
    requires forall id :: id in c.streams ==> c.streams[id].Valid()
  {
    !c.closed &&
    match e
    case Open(id, window) =>
      id !in c.streams && id !in c.windows && window <= U64_MAX
      && c' == Updated(c, id, Initial(window)).(windows := c.windows[id := window])
    case StreamFrame(id, b, orders, r) =>
      if c.rxData + |b.data| > c.maxRxData then r == Err(FlowControl) && c' == c.(closed := true)
      else
        && id in c.streams
        && (match r
            case Err(_) => Pushed(c.streams[id], b, orders, r, c.streams[id]) && c' == c.(closed := true)
            case Ok(_) =>
              && id in c'.streams && Pushed(c.streams[id], b, orders, r, c'.streams[id])
              && c' == Updated(c, id, c'.streams[id]).(rxData := c.rxData + |b.data|))
    case ResetFrame(id, size, missed) =>
      && id in c.streams
      && (match AfterReset(c, id, size, missed)
          case Err(Done) => c' == c
          case Err(_) => c' == c.(closed := true)
          case Ok(d) => c' == d)
    case ReadStream(id, cap, out) =>
      && id in c.streams && id in c'.streams && c.streams[id].Ready()
      && Popped(c.streams[id], cap, out, c'.streams[id])
      && c' == Updated(c, id, c'.streams[id]).(
                 maxRxDataNext := SaturatingAdd(c.maxRxDataNext, |out|), read := c.read + |out|,
                 almostFull := c.almostFull + if AlmostFull(c'.streams[id]) then {id} else {})
    case CommitConnection =>
      && c.rxData <= c.maxRxData && UpdateDue(c.rxData, c.maxRxData, c.maxRxDataNext)
      && c' == c.(maxRxData := c.maxRxDataNext)
    case CommitStream(id) =>
      && id in c.streams && id in c.almostFull
      && c' == Updated(c, id, Committed(c.streams[id])).(almostFull := c.almostFull - {id})
    case StopReading(id) =>
      id in c.streams && Shut(c.streams[id]).Ok? && c' == Updated(c, id, Shut(c.streams[id]).value)
    case Collect(id) => id in c.streams && c' == c.(streams := c.streams - {id})
  }

  // ---------- unread bytes ----------

  /** The sum over all streams. */
  ghost function Total(streams: map<nat, Recv>, f: Recv -> nat): nat {
    if streams == map[] then 0
    else
      var id :| id in streams;
      f(streams[id]) + Total(streams - {id}, f)
  }

  lemma {:induction false} TotalPick(streams: map<nat, Recv>, f: Recv -> nat, id: nat)
    requires id in streams
    ensures Total(streams, f) == f(streams[id]) + Total(streams - {id}, f)
    decreases |streams|
  {
    var k :| k in streams && Total(streams, f) == f(streams[k]) + Total(streams - {k}, f);
    if k != id {
      var less := streams - {k};
      assert |less| < |streams|;
      TotalPick(less, f, id);
      TotalPick(streams - {id}, f, k);
      assert less - {id} == streams - {id} - {k};
    }
  }

  lemma TotalUpdate(streams: map<nat, Recv>, f: Recv -> nat, id: nat, s: Recv)
    ensures Total(streams[id := s], f) == f(s) + Total(streams - {id}, f)
  {
    TotalPick(streams[id := s], f, id);
    assert streams[id := s] - {id} == streams - {id};
  }

  function Held(s: Recv): nat {
    Bytes(s.data)
  }

  /** Unread bytes held by all streams together. */
  ghost function Unread(streams: map<nat, Recv>): nat {
    Total(streams, Held)
  }

  lemma UnreadPick(streams: map<nat, Recv>, id: nat)
    requires id in streams
    ensures Unread(streams) == Bytes(streams[id].data) + Unread(streams - {id})
  {
    TotalPick(streams, Held, id);
  }

  lemma UnreadUpdate(streams: map<nat, Recv>, id: nat, s: Recv)
    ensures Unread(streams[id := s]) == Bytes(s.data) + Unread(streams - {id})
  {
    TotalUpdate(streams, Held, id, s);
  }

  /** Chunks that are apart and lie within a range hold no more bytes than it has. */
  lemma {:induction false} BytesFit(data: seq<RangeBuf>, lo: nat, hi: nat)
    requires Apart(data) && lo <= hi && forall b :: b in data ==> lo <= b.off && b.MaxOff() <= hi
    ensures Bytes(data) <= hi - lo
    decreases |data|
  {
    if data != [] {
      var i := Lowest(data);
      var b := data[i];
      assert b in data;
      WithoutChunk(data, i);
      OthersBeyond(data);
      BytesFit(Without(data, i), b.MaxOff(), hi);
    }
  }

  // ---------- the invariant ----------

  ghost predicate StreamInv(s: Recv, window: nat) {
    s.Valid() && window <= s.maxData && s.maxDataNext == SaturatingAdd(window, s.off)
  }

  ghost predicate Inv(c: Conn, window: nat) {
    && (forall id :: id in c.streams ==> id in c.windows && StreamInv(c.streams[id], c.windows[id]))
    && c.rxData <= c.maxRxData <= c.maxRxDataNext <= U64_MAX
    && window <= c.maxRxData && c.maxRxDataNext == SaturatingAdd(window, c.read)
    && Unread(c.streams) + c.read <= c.rxData
  }

  lemma FrameKeeps(c: Conn, id: nat, b: RangeBuf, orders: seq<seq<RangeBuf>>, r: Result<()>, c': Conn, window: nat)
    requires Inv(c, window) && Does(c, StreamFrame(id, b, orders, r), c') && r.Ok?
    ensures Inv(c', window)
  {
    PushSound(c.streams[id], b, orders, r, c'.streams[id]);
    UnreadPick(c.streams, id);
    UnreadUpdate(c.streams, id, c'.streams[id]);
  }

  lemma ReadNumbers(s: Recv, cap: nat, out: seq<byte>, t: Recv, window: nat)
    requires StreamInv(s, window) && Popped(s, cap, out, t)
    ensures StreamInv(t, window) && Bytes(t.data) + |out| == Bytes(s.data)
  {
    hide ValidChunks;
  }

  lemma ReadKeeps(c: Conn, id: nat, cap: nat, out: seq<byte>, c': Conn, window: nat)
    requires Inv(c, window) && Does(c, ReadStream(id, cap, out), c')
    ensures Inv(c', window)
  {
    assert StreamInv(c.streams[id], c.windows[id]);
    ReadNumbers(c.streams[id], cap, out, c'.streams[id], c.windows[id]);
    hide StreamInv, Popped;
    UnreadPick(c.streams, id);
    UnreadUpdate(c.streams, id, c'.streams[id]);
  }

  lemma ResetKeeps(c: Conn, id: nat, size: nat, missed: bool, c': Conn, window: nat)
    requires Inv(c, window) && Does(c, ResetFrame(id, size, missed), c') && AfterReset(c, id, size, missed).Ok?
    ensures Inv(c', window)
  {
    LimitsKeepValid(c.streams[id], size);
    if missed {
      LimitsKeepValid(Shut(c.streams[id]).value, size);
    }
    UnreadPick(c.streams, id);
    UnreadUpdate(c.streams, id, c'.streams[id]);
  }

  lemma OpenKeeps(c: Conn, id: nat, w: nat, c': Conn, window: nat)
    requires Inv(c, window) && Does(c, Open(id, w), c')
    ensures Inv(c', window)
  {
    UnreadUpdate(c.streams, id, Initial(w));
    assert c.streams - {id} == c.streams;
  }

  /** A step of one stream that buffers nothing. */
  lemma LocalKeeps(c: Conn, id: nat, s: Recv, c': Conn, window: nat)
    requires Inv(c, window) && id in c.streams && StreamInv(s, c.windows[id])
    requires Bytes(s.data) <= Bytes(c.streams[id].data)
    requires c' == Updated(c, id, s).(almostFull := c'.almostFull)
    ensures Inv(c', window)
  {
    UnreadPick(c.streams, id);
    UnreadUpdate(c.streams, id, s);
  }

  lemma CommitKeeps(c: Conn, c': Conn, window: nat)
    requires Inv(c, window) && Does(c, CommitConnection, c')
    ensures Inv(c', window)
  {
    hide StreamInv, Unread;
  }

  lemma CollectKeeps(c: Conn, id: nat, c': Conn, window: nat)
    requires Inv(c, window) && Does(c, Collect(id), c')
    ensures Inv(c', window)
  {
    hide StreamInv;
    UnreadPick(c.streams, id);
  }

  lemma StepKeeps(c: Conn, e: Event, c': Conn, window: nat)
    requires Inv(c, window) && Does(c, e, c')
    ensures c'.closed || Inv(c', window)
  {
    hide Pushed, Popped, ValidChunks, Unread;
    match e
    case Open(id, w) => OpenKeeps(c, id, w, c', window);
    case StreamFrame(id, b, orders, r) => if r.Ok? { FrameKeeps(c, id, b, orders, r, c', window); }
    case ResetFrame(id, size, missed) =>
      if AfterReset(c, id, size, missed).Ok? { ResetKeeps(c, id, size, missed, c', window); }
    case ReadStream(id, cap, out) => ReadKeeps(c, id, cap, out, c', window);
    case CommitConnection => CommitKeeps(c, c', window);
    case CommitStream(id) => LocalKeeps(c, id, Committed(c.streams[id]), c', window);
    case StopReading(id) =>
      LimitsKeepValid(c.streams[id], 0);
      LocalKeeps(c, id, Shut(c.streams[id]).value, c', window);
    case Collect(id) => CollectKeeps(c, id, c', window);
  }

  // ---------- the marks ----------

  /** What a step does to the numbers of one stream. */
  lemma StreamEffect(c: Conn, e: Event, c': Conn, window: nat, id: nat)
    requires Inv(c, window) && id in c.streams && id in c'.streams && Does(c, e, c') && !c'.closed
    ensures id in c.windows && id in c'.windows && c'.windows[id] == c.windows[id]
    ensures var s, t := c.streams[id], c'.streams[id];
            && (s.finOff.Some? ==> t.finOff.Some?) && (s.drain ==> t.drain)
            && if e.ReadStream? && e.id == id then
                 Popped(s, e.cap, e.out, t)
                 && t.off == s.off + |e.out| && t.len == s.len && t.maxData == s.maxData && t.off <= t.len
                 && t.maxDataNext == SaturatingAdd(s.maxDataNext, |e.out|) && !s.drain && t.finOff == s.finOff
               else if e == CommitStream(id) then t == Committed(s)
               else s.len <= t.len && t.off == s.off && t.maxData == s.maxData && t.maxDataNext == s.maxDataNext
  {
    hide Pushed, ValidChunks, Unread;
    match e
    case StreamFrame(other, b, orders, r) =>
      if other == id {
        PushGrows(c.streams[id], b, orders, r, c'.streams[id]);
      }
    case _ =>
  }

  /** A stream that is marked is due an update, and one that is due an update when all of it was
      read is marked, unless it is not read any more. */
  ghost predicate Mark(c: Conn, id: nat) {
    && (id in c.almostFull ==> id in c.windows)
    && (id in c.streams ==>
          var s := c.streams[id];
          && s.len <= s.maxData
          && (id in c.almostFull ==> UpdateDue(s.len, s.maxData, s.maxDataNext))
          && (AlmostFull(s) && s.off == s.len && !s.drain ==> id in c.almostFull))
  }

  ghost predicate Marks(c: Conn) {
    forall id :: Mark(c, id)
  }

  /** What a step does to one mark. */
  lemma MarkEffect(c: Conn, e: Event, c': Conn, id: nat)
    requires (forall i :: i in c.streams ==> c.streams[i].Valid()) && Does(c, e, c')
    ensures id in c'.almostFull <==>
              if e.ReadStream? && e.id == id then id in c.almostFull || (id in c'.streams && AlmostFull(c'.streams[id]))
              else id in c.almostFull && e != CommitStream(id)
  {
    hide Pushed, Popped, ValidChunks, AlmostFull;
  }

  /** A stream that was not there before is new. */
  lemma NewStream(c: Conn, e: Event, c': Conn, id: nat)
    requires (forall i :: i in c.streams ==> c.streams[i].Valid()) && Does(c, e, c')
    ensures id in c'.streams && id !in c.streams ==>
              id !in c.windows && c'.streams[id] == Initial(c'.streams[id].maxData)
    ensures id in c.windows ==> id in c'.windows
  {
    hide Pushed, Popped, ValidChunks, AlmostFull;
  }

  lemma MarkKept(c: Conn, e: Event, c': Conn, window: nat, id: nat)
    requires Inv(c, window) && Marks(c) && Does(c, e, c') && !c'.closed
    ensures Mark(c', id)
  {
    assert Mark(c, id);
    StepKeeps(c, e, c', window);
    MarkEffect(c, e, c', id);
    NewStream(c, e, c', id);
    if id in c.streams && id in c'.streams {
      StreamEffect(c, e, c', window, id);
    }
    ReadHere(c, e, c');
    hide Does, Popped, ValidChunks, Unread;
  }

  lemma ReadHere(c: Conn, e: Event, c': Conn)
    requires (forall i :: i in c.streams ==> c.streams[i].Valid()) && Does(c, e, c')
    ensures e.ReadStream? ==> e.id in c.streams && e.id in c'.streams
  {
    hide Pushed, Popped, ValidChunks;
  }

  lemma MarksKept(c: Conn, e: Event, c': Conn, window: nat)
    requires Inv(c, window) && Marks(c) && Does(c, e, c') && !c'.closed
    ensures Marks(c')
  {
    hide Inv, Does, Mark;
    forall id
      ensures Mark(c', id)
    {
      MarkKept(c, e, c', window, id);
    }
  }

  // ---------- whole runs ----------

  ghost predicate Run(cs: seq<Conn>, es: seq<Event>, window: nat) {
    && |cs| == |es| + 1 && cs[0] == Start(window)
    && forall k :: 0 <= k < |es| ==>
         (forall id :: id in cs[k].streams ==> cs[k].streams[id].Valid()) && Does(cs[k], es[k], cs[k + 1])
  }

  lemma {:induction false} RunInv(cs: seq<Conn>, es: seq<Event>, window: nat, k: nat)
    requires Run(cs, es, window) && window <= U64_MAX && k < |cs|
    ensures cs[k].closed || (Inv(cs[k], window) && Marks(cs[k]))
  {
    if k > 0 {
      RunInv(cs, es, window, k - 1);
      assert Does(cs[k - 1], es[k - 1], cs[k]);
      StepKeeps(cs[k - 1], es[k - 1], cs[k], window);
      if !cs[k].closed {
        MarksKept(cs[k - 1], es[k - 1], cs[k], window);
      }
    }
  }

  /** However the peer behaves, until the connection is closed the unread bytes of a stream
      are at most its initial window, those of all streams together at most the
      connection's, and the credit computations do not underflow. */
  lemma UnreadBounded(cs: seq<Conn>, es: seq<Event>, window: nat, k: nat, id: nat)
    requires Run(cs, es, window) && window <= U64_MAX && k < |cs| && !cs[k].closed
    ensures Unread(cs[k].streams) <= window
    ensures cs[k].rxData <= cs[k].maxRxData
    ensures id in cs[k].streams ==>
              var s := cs[k].streams[id];
              && id in cs[k].windows
              && Bytes(s.data) <= s.len - s.off <= cs[k].windows[id]
              && s.len <= s.maxData
  {
    RunInv(cs, es, window, k);
    if id in cs[k].streams {
      var s := cs[k].streams[id];
      BytesFit(s.data, s.off, s.len);
    }
  }

  // ---------- a packet given up at one of its frames ----------

  /** A packet whose second frame answers `Done` is not recorded, and the network may repeat it.
      Here that frame resets a stream that is not read any more, and the first one carries
      data of another stream: that data is charged to the connection both times. */
  lemma GivenUpPacketChargedTwice(c: Conn, stopped: Conn, once: Conn, again: Conn, window: nat, id: nat, size: nat,
                                  other: nat, b: RangeBuf, o1: seq<seq<RangeBuf>>, o2: seq<seq<RangeBuf>>)
    requires Inv(c, window) && Does(c, StopReading(id), stopped) && other != id && Inv(stopped, window)
    requires Does(stopped, StreamFrame(other, b, o1, Ok(())), once) && Inv(once, window)
    requires Does(once, StreamFrame(other, b, o2, Ok(())), again)
    ensures id in once.streams && AfterReset(once, id, size, true) == Err(Done)
    ensures id in again.streams && AfterReset(again, id, size, true) == Err(Done)
    ensures again.rxData == c.rxData + 2 * |b.data|
  {
    hide Pushed, ValidChunks, Unread, StreamInv;
  }
}
