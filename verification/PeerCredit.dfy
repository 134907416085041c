/** The limits that the peer knows of, on the connection and on a stream: when a peer without
    credit gets more (src/lib.rs, the MAX_DATA and MAX_STREAM_DATA frames). */
module PeerCredit {
  import opened Prelude
  import opened Chunks
  import opened ChunkHeap
  import opened Limits
  import opened RecvSpec
  import opened ReadableBytes
  import opened FlowControl
  import Announcements

  // ---------- accounts ----------

  /** The bytes that the application can read right now, on all streams together. */
  ghost function AllReadable(c: Conn): nat {
    Total(c.streams, Readable)
  }

  /** The peer's account with the connection: bytes received, bytes read, and bytes that can be
      read. What was charged for streams that are not read any more, or were reset, is
      forfeited. */
  ghost function ConnAccount(c: Conn, l: Announcements.Link, window: nat): Announcements.Account {
    Announcements.Account(window, c.rxData, c.read, AllReadable(c), c.maxRxData, c.maxRxDataNext, false, l.known, l.flight)
  }

  /** No update is sent any more: the stream is not marked, and will not be. */
  predicate Closed(c: Conn, id: nat)
    requires id in c.streams
  {
    id !in c.almostFull && (c.streams[id].finOff.Some? || c.streams[id].drain)
  }

  /** The peer's account with one stream. Bytes below the highest one received can still be
      read, when the gaps are filled, as long as the stream is read at all. */
  function StreamAccount(c: Conn, id: nat, l: Announcements.Link): Announcements.Account
    requires id in c.streams && id in c.windows
  {
    var s := c.streams[id];
    Announcements.Account(c.windows[id], s.len, s.off, if s.drain || s.len < s.off then 0 else s.len - s.off,
                          s.maxData, s.maxDataNext, Closed(c, id), l.known, l.flight)
  }

  predicate Live(c: Conn, stream: Option<nat>) {
    stream.Some? ==> stream.value in c.streams && stream.value in c.windows
  }

  /** The account with the connection, or with one stream. */
  ghost function AccountWith(c: Conn, l: Announcements.Link, window: nat, stream: Option<nat>): Announcements.Account
    requires Live(c, stream)
  {
    if stream.None? then ConnAccount(c, l, window) else StreamAccount(c, stream.value, l)
  }

  /** A step together with the announcements of the connection's limit, or of the limit of one
      stream, against a peer that stays within what it knows of. A MAX_DATA frame is built only
      if it fits, while a MAX_STREAM_DATA frame that does not fit is dropped (`sent`). */
  ghost predicate Linked(c: Conn, l: Announcements.Link, ev: Announcements.LinkEvent<Event>,
                         c': Conn, l': Announcements.Link, stream: Option<nat>) {
    && Announcements.Carries(l, ev, l')
    && match ev
       case Local(e, sent) =>
         && (forall id :: id in c.streams ==> c.streams[id].Valid()) && Does(c, e, c')
         && (match stream
             case None =>
               && c'.rxData <= l.known
               && if e.CommitConnection? then sent && l' == Announcements.Told(l, c.maxRxDataNext, sent) else l' == l
             case Some(id) =>
               && id in c.streams && id in c'.streams && c'.streams[id].len <= l.known
               && l' == if e == CommitStream(id) then Announcements.Told(l, c.streams[id].maxDataNext, sent) else l)
       case _ => c' == c
  }

  /** The connection stays open, and the stream with it, from a state in which the account is
      in order. */
  ghost predicate LinkedRun(cs: seq<Conn>, ls: seq<Announcements.Link>, evs: seq<Announcements.LinkEvent<Event>>,
                            window: nat, stream: Option<nat>) {
    && |cs| == |ls| == |evs| + 1
    && InOrder(cs[0], ls[0], window, stream)
    && (forall k :: 0 <= k < |cs| ==> !cs[k].closed && Live(cs[k], stream))
    && forall k :: 0 <= k < |evs| ==> Linked(cs[k], ls[k], evs[k], cs[k + 1], ls[k + 1], stream)
  }

  ghost predicate InOrder(c: Conn, l: Announcements.Link, window: nat, stream: Option<nat>) {
    Inv(c, window) && Marks(c) && !c.closed && Live(c, stream) && Announcements.Inv(AccountWith(c, l, window, stream))
  }

  // ---------- what can be read ----------

  lemma {:induction false} TotalAtMost(streams: map<nat, Recv>, f: Recv -> nat, g: Recv -> nat)
    requires forall id :: id in streams ==> f(streams[id]) <= g(streams[id])
    ensures Total(streams, f) <= Total(streams, g)
    decreases |streams|
  {
    if streams != map[] {
      var id :| id in streams;
      var less := streams - {id};
      assert |less| < |streams|;
      TotalPick(streams, f, id);
      TotalPick(streams, g, id);
      TotalAtMost(less, f, g);
    }
  }

  lemma {:induction false} SomeCounts(streams: map<nat, Recv>, f: Recv -> nat) returns (id: nat)
    requires Total(streams, f) > 0
    ensures id in streams && f(streams[id]) > 0
    decreases |streams|
  {
    id :| id in streams;
    TotalPick(streams, f, id);
    if f(streams[id]) == 0 {
      var less := streams - {id};
      assert |less| < |streams|;
      id := SomeCounts(less, f);
    }
  }

  /** What can be read was received and not read. */
  lemma ReadableWithin(c: Conn, window: nat)
    requires Inv(c, window)
    ensures c.read + AllReadable(c) <= c.rxData
  {
    forall id | id in c.streams
      ensures Readable(c.streams[id]) <= Held(c.streams[id])
    {
      assert StreamInv(c.streams[id], c.windows[id]);
      ReadableFits(c.streams[id]);
    }
    TotalAtMost(c.streams, Readable, Held);
  }

  lemma ReadableUpdate(streams: map<nat, Recv>, id: nat, s: Recv)
    ensures Total(streams[id := s], Readable) + (if id in streams then Readable(streams[id]) else 0)
            == Total(streams, Readable) + Readable(s)
  {
    TotalUpdate(streams, Readable, id, s);
    if id in streams {
      TotalPick(streams, Readable, id);
    } else {
      assert streams - {id} == streams;
    }
  }

  lemma ReadableLess(streams: map<nat, Recv>, id: nat)
    requires id in streams
    ensures Total(streams - {id}, Readable) <= Total(streams, Readable)
  {
    TotalPick(streams, Readable, id);
  }

  lemma SameReadable(s: Recv, t: Recv)
    requires t.off == s.off && t.len == s.len && (t.data == s.data || t.data == [])
    ensures Readable(t) <= Readable(s)
  {
  }

  lemma FrameMoves(c: Conn, id: nat, b: RangeBuf, orders: seq<seq<RangeBuf>>, r: Result<()>, c': Conn)
    requires (forall i :: i in c.streams ==> c.streams[i].Valid()) && Does(c, StreamFrame(id, b, orders, r), c') && !c'.closed
    ensures c'.rxData == c.rxData ==> AllReadable(c') <= AllReadable(c)
  {
    hide ValidChunks, Readable, Pushed;
    ReadableUpdate(c.streams, id, c'.streams[id]);
    if b.data == [] {
      EmptyFrame(c.streams[id], b, orders, r, c'.streams[id]);
    }
  }

  lemma ReadMoves(c: Conn, id: nat, cap: nat, out: seq<byte>, c': Conn)
    requires (forall i :: i in c.streams ==> c.streams[i].Valid()) && Does(c, ReadStream(id, cap, out), c')
    ensures AllReadable(c') + |out| == AllReadable(c)
  {
    hide ValidChunks, Readable, Popped, AlmostFull;
    ReadableUpdate(c.streams, id, c'.streams[id]);
    ReadingTakes(c.streams[id], cap, out, c'.streams[id]);
  }

  lemma ResetMoves(c: Conn, id: nat, size: nat, missed: bool, c': Conn)
    requires (forall i :: i in c.streams ==> c.streams[i].Valid()) && Does(c, ResetFrame(id, size, missed), c') && !c'.closed
    ensures AllReadable(c') <= AllReadable(c)
  {
    hide Recv.Valid, Readable;
    ReadableUpdate(c.streams, id, c'.streams[id]);
    SameReadable(c.streams[id], c'.streams[id]);
  }

  /** Only a frame with bytes in it makes more readable. */
  lemma ReadableMoves(c: Conn, e: Event, c': Conn)
    requires (forall i :: i in c.streams ==> c.streams[i].Valid()) && Does(c, e, c') && !c'.closed
    ensures e.ReadStream? ==> AllReadable(c') + |e.out| == AllReadable(c)
    ensures c'.rxData == c.rxData ==> AllReadable(c') <= AllReadable(c)
  {
    hide Recv.Valid, Readable, AlmostFull, Pushed, Popped, AfterReset;
    match e
    case Open(id, w) =>
      ReadableUpdate(c.streams, id, Initial(w));
      NothingReadable(w);
    case StreamFrame(id, b, orders, r) => FrameMoves(c, id, b, orders, r, c');
    case ResetFrame(id, size, missed) => ResetMoves(c, id, size, missed, c');
    case ReadStream(id, cap, out) => ReadMoves(c, id, cap, out, c');
    case CommitConnection =>
    case CommitStream(id) =>
      ReadableUpdate(c.streams, id, c'.streams[id]);
      SameReadable(c.streams[id], c'.streams[id]);
    case StopReading(id) =>
      ReadableUpdate(c.streams, id, c'.streams[id]);
      SameReadable(c.streams[id], c'.streams[id]);
    case Collect(id) => ReadableLess(c.streams, id);
  }

  lemma NothingReadable(w: nat)
    ensures Readable(Initial(w)) == 0
  {
  }

  // ---------- every step is a step of the account ----------

  function Booked(c: Conn, ev: Announcements.LinkEvent<Event>, c': Conn): Announcements.Event {
    match ev
    case Local(ReadStream(_, _, out), _) => Announcements.Return(|out|)
    case Local(CommitConnection, sent) => Announcements.Announce(sent)
    case Local(_, _) => Announcements.Use(Max(0, c'.rxData - c.rxData))
    case Heard(max) => Announcements.Arrive(max)
    case Lost(max) => Announcements.Vanish(max)
  }

  /** What a step does to the numbers of the connection. */
  lemma ConnEffect(c: Conn, e: Event, c': Conn)
    requires (forall id :: id in c.streams ==> c.streams[id].Valid()) && Does(c, e, c') && !c'.closed
    ensures match e
            case ReadStream(id, cap, out) =>
              && c'.read == c.read + |out| && c'.maxRxDataNext == SaturatingAdd(c.maxRxDataNext, |out|)
              && c'.rxData == c.rxData && c'.maxRxData == c.maxRxData
            case CommitConnection =>
              && c.rxData <= c.maxRxData && UpdateDue(c.rxData, c.maxRxData, c.maxRxDataNext)
              && c' == c.(maxRxData := c.maxRxDataNext)
            case _ =>
              && c'.rxData >= c.rxData && c'.read == c.read && c'.maxRxData == c.maxRxData
              && c'.maxRxDataNext == c.maxRxDataNext
  {
    hide Pushed, Popped, ValidChunks, AlmostFull;
  }

  lemma ConnStepIsBooked(c: Conn, l: Announcements.Link, ev: Announcements.LinkEvent<Event>, c': Conn, l': Announcements.Link,
                         window: nat)
    requires Inv(c, window) && Inv(c', window) && Linked(c, l, ev, c', l', None) && !c'.closed
    ensures Announcements.Does(ConnAccount(c, l, window), Booked(c, ev, c'), ConnAccount(c', l', window))
  {
    hide Recv.Valid, Marks, StreamInv, AllReadable;
    ReadableWithin(c', window);
    if ev.Local? {
      ConnEffect(c, ev.e, c');
      ReadableMoves(c, ev.e, c');
    }
    hide Does, Inv;
  }

  function StreamBooked(c: Conn, ev: Announcements.LinkEvent<Event>, c': Conn, id: nat): Announcements.Event
    requires id in c.streams && id in c'.streams
  {
    match ev
    case Local(e, sent) =>
      if e.ReadStream? && e.id == id then Announcements.Return(|e.out|)
      else if e == CommitStream(id) then Announcements.Announce(sent)
      else Announcements.Use(Max(0, c'.streams[id].len - c.streams[id].len))
    case Heard(max) => Announcements.Arrive(max)
    case Lost(max) => Announcements.Vanish(max)
  }

  /** What a step does to stream `id`: from `s` to `t`, and its mark. */
  predicate StreamMoved(s: Recv, t: Recv, e: Event, id: nat, marked: bool, marked': bool) {
    && s.off <= s.len && t.off <= t.len && (s.finOff.Some? ==> t.finOff.Some?) && (s.drain ==> t.drain)
    && if e.ReadStream? && e.id == id then
         && t.off == s.off + |e.out| && t.len == s.len && t.maxData == s.maxData && !s.drain && t.finOff == s.finOff
         && t.maxDataNext == SaturatingAdd(s.maxDataNext, |e.out|) && marked' == (marked || AlmostFull(t))
       else if e == CommitStream(id) then
         && marked && !marked' && s.len <= s.maxData && UpdateDue(s.len, s.maxData, s.maxDataNext)
         && t == Committed(s)
       else
         && s.len <= t.len && t.off == s.off && t.maxData == s.maxData && t.maxDataNext == s.maxDataNext
         && marked' == marked
  }

  lemma StreamMoves(c: Conn, e: Event, c': Conn, window: nat, id: nat)
    requires Inv(c, window) && Marks(c) && Inv(c', window) && id in c.streams && id in c'.streams && Does(c, e, c') && !c'.closed
    ensures id in c.windows && id in c'.windows && c'.windows[id] == c.windows[id]
    ensures StreamMoved(c.streams[id], c'.streams[id], e, id, id in c.almostFull, id in c'.almostFull)
  {
    assert Mark(c, id);
    assert StreamInv(c.streams[id], c.windows[id]) && StreamInv(c'.streams[id], c'.windows[id]);
    StreamEffect(c, e, c', window, id);
    MarkEffect(c, e, c', id);
    CommitMarked(c, e, c');
    hide Does, Inv, Popped, ValidChunks, AlmostFull;
  }

  lemma CommitMarked(c: Conn, e: Event, c': Conn)
    requires (forall i :: i in c.streams ==> c.streams[i].Valid()) && Does(c, e, c')
    ensures e.CommitStream? ==> e.id in c.almostFull
  {
    hide Recv.Valid;
  }

  lemma StreamStepIsBooked(c: Conn, l: Announcements.Link, ev: Announcements.LinkEvent<Event>,
                           c': Conn, l': Announcements.Link, window: nat, id: nat)
    requires Inv(c, window) && Marks(c) && id in c.streams && id in c'.streams && Linked(c, l, ev, c', l', Some(id))
    requires c.streams[id].len <= l.known && !c'.closed && Inv(c', window)
    ensures id in c.windows && id in c'.windows
    ensures Announcements.Does(StreamAccount(c, id, l), StreamBooked(c, ev, c', id), StreamAccount(c', id, l'))
  {
    hide Does, Inv, Marks, Recv.Valid;
    Windowed(c, window, id);
    if ev.Local? {
      StreamMoves(c, ev.e, c', window, id);
    }
  }

  lemma Windowed(c: Conn, window: nat, id: nat)
    requires Inv(c, window) && id in c.streams
    ensures id in c.windows
  {
  }

  ghost function BookedWith(c: Conn, ev: Announcements.LinkEvent<Event>, c': Conn, stream: Option<nat>): Announcements.Event
    requires Live(c, stream) && Live(c', stream)
  {
    if stream.None? then Booked(c, ev, c') else StreamBooked(c, ev, c', stream.value)
  }

  /** Every step keeps the invariant, and is a step of the account. */
  lemma StepWith(c: Conn, l: Announcements.Link, ev: Announcements.LinkEvent<Event>, c': Conn, l': Announcements.Link,
                 window: nat, stream: Option<nat>)
    requires InOrder(c, l, window, stream) && Live(c', stream) && Linked(c, l, ev, c', l', stream) && !c'.closed
    ensures InOrder(c', l', window, stream)
    ensures Announcements.Does(AccountWith(c, l, window, stream), BookedWith(c, ev, c', stream),
                               AccountWith(c', l', window, stream))
  {
    hide Inv, Does, Marks, Announcements.Does, Announcements.Inv, Announcements.Carries, StreamBooked, Booked;
    if ev.Local? {
      StepKeeps(c, ev.e, c', window);
      MarksKept(c, ev.e, c', window);
    }
    match stream {
      case None => ConnStepIsBooked(c, l, ev, c', l', window);
      case Some(id) =>
        WithinKnown(c, l, id);
        StreamStepIsBooked(c, l, ev, c', l', window, id);
    }
    Announcements.StepKeeps(AccountWith(c, l, window, stream), BookedWith(c, ev, c', stream),
                            AccountWith(c', l', window, stream));
  }

  lemma WithinKnown(c: Conn, l: Announcements.Link, id: nat)
    requires id in c.streams && id in c.windows && Announcements.Inv(StreamAccount(c, id, l))
    ensures c.streams[id].len <= l.known
  {
  }

  // ---------- whole runs ----------

  /** A new connection and a new stream have their account in order. */
  lemma AccountsStart(c: Conn, window: nat, id: nat, w: nat, c': Conn, outer: nat)
    requires window <= U64_MAX && Inv(c, outer) && Marks(c) && Does(c, Open(id, w), c') && !c.closed
    ensures InOrder(Start(window), Announcements.Link(window, {}), window, None)
    ensures ConnAccount(Start(window), Announcements.Link(window, {}), window) == Announcements.Start(window)
    ensures InOrder(c', Announcements.Link(w, {}), outer, Some(id))
    ensures StreamAccount(c', id, Announcements.Link(w, {})) == Announcements.Start(w)
  {
    StepKeeps(c, Open(id, w), c', outer);
    MarksKept(c, Open(id, w), c', outer);
    assert Mark(c, id);
    StartMarks(window);
    hide Inv, Marks, Mark;
  }

  lemma StartMarks(window: nat)
    requires window <= U64_MAX
    ensures Inv(Start(window), window) && Marks(Start(window))
  {
  }

  /** In every run the account is in order. */
  lemma {:induction false} RunInOrder(cs: seq<Conn>, ls: seq<Announcements.Link>,
                                      evs: seq<Announcements.LinkEvent<Event>>, window: nat, stream: Option<nat>, k: nat)
    requires LinkedRun(cs, ls, evs, window, stream) && k < |cs|
    ensures InOrder(cs[k], ls[k], window, stream)
  {
    hide InOrder, Linked, AccountWith, BookedWith, Announcements.Does;
    if k > 0 {
      RunInOrder(cs, ls, evs, window, stream, k - 1);
      StepWith(cs[k - 1], ls[k - 1], evs[k - 1], cs[k], ls[k], window, stream);
    }
  }

  /** The accounts of a run and what is booked on them. */
  lemma AccountsRun(cs: seq<Conn>, ls: seq<Announcements.Link>, evs: seq<Announcements.LinkEvent<Event>>,
                    window: nat, stream: Option<nat>)
    returns (accounts: seq<Announcements.Account>, es: seq<Announcements.Event>)
    requires LinkedRun(cs, ls, evs, window, stream)
    ensures |accounts| == |cs| && |es| == |evs| && Announcements.Run(accounts, es) && Announcements.Inv(accounts[0])
    ensures forall k :: 0 <= k < |cs| ==> accounts[k] == AccountWith(cs[k], ls[k], window, stream)
    ensures forall k :: 0 <= k < |evs| ==> es[k] == BookedWith(cs[k], evs[k], cs[k + 1], stream)
  {
    hide Inv, Marks, Linked, AccountWith, BookedWith, Announcements.Inv, Announcements.Does;
    accounts := seq(|cs|, k requires 0 <= k < |cs| => AccountWith(cs[k], ls[k], window, stream));
    es := seq(|evs|, k requires 0 <= k < |evs| => BookedWith(cs[k], evs[k], cs[k + 1], stream));
    forall k | 0 <= k < |evs|
      ensures Announcements.Does(accounts[k], es[k], accounts[k + 1])
    {
      RunInOrder(cs, ls, evs, window, stream, k);
      StepWith(cs[k], ls[k], evs[k], cs[k + 1], ls[k + 1], window, stream);
    }
  }

  /** A peer that is stuck, on the connection or on a stream, sends no further byte there,
      whatever happens. */
  lemma StuckSendsNoMore(cs: seq<Conn>, ls: seq<Announcements.Link>, evs: seq<Announcements.LinkEvent<Event>>,
                         window: nat, stream: Option<nat>, j: nat, k: nat)
    requires LinkedRun(cs, ls, evs, window, stream) && j <= k < |cs|
    requires Announcements.Stuck(AccountWith(cs[j], ls[j], window, stream))
    ensures Announcements.Stuck(AccountWith(cs[k], ls[k], window, stream))
    ensures match stream
            case None => cs[k].rxData == cs[j].rxData
            case Some(id) => cs[k].streams[id].len == cs[j].streams[id].len
  {
    hide InOrder, Linked, Announcements.Inv, Announcements.Run, Announcements.Stuck, BookedWith;
    var accounts, es := AccountsRun(cs, ls, evs, window, stream);
    Announcements.StuckForever(accounts, es, j, k);
  }

  /** The update built in the step is sent; no update is lost before the peer heard it. */
  predicate Reaches(l: Announcements.Link, ev: Announcements.LinkEvent<Event>) {
    match ev
    case Local(e, sent) => e.CommitConnection? || e.CommitStream? ==> sent
    case Lost(max) => max <= l.known
    case Heard(_) => true
  }

  lemma ReliableStep(c: Conn, l: Announcements.Link, ev: Announcements.LinkEvent<Event>, c': Conn,
                     window: nat, stream: Option<nat>)
    requires Live(c, stream) && Live(c', stream)
    requires Reaches(l, ev)
    ensures Announcements.Reliable(AccountWith(c, l, window, stream), BookedWith(c, ev, c', stream))
  {
  }

  /** When every update is sent and none is lost before the peer heard it, a peer is stuck exactly
      when it forfeited as many bytes as its initial window has, or used up the limit of a stream
      on which no update is sent any more. */
  lemma StuckWithoutLossIff(cs: seq<Conn>, ls: seq<Announcements.Link>, evs: seq<Announcements.LinkEvent<Event>>,
                            window: nat, stream: Option<nat>, k: nat)
    requires LinkedRun(cs, ls, evs, window, stream) && k < |cs|
    requires var a := AccountWith(cs[0], ls[0], window, stream); a.limit == a.known
    requires forall j :: 0 <= j < k ==> Reaches(ls[j], evs[j])
    requires AccountWith(cs[k], ls[k], window, stream).used < U64_MAX
    ensures var a := AccountWith(cs[k], ls[k], window, stream);
            Announcements.Stuck(a) <==> a.Forfeited() == a.initial || (a.closed && a.used == a.limit)
  {
    hide InOrder, Linked, Announcements.Inv, Announcements.Run, Announcements.Stuck, BookedWith, Announcements.Reliable;
    var accounts, es := AccountsRun(cs, ls, evs, window, stream);
    forall j | 0 <= j < k
      ensures Announcements.Reliable(accounts[j], es[j])
    {
      ReliableStep(cs[j], ls[j], evs[j], cs[j + 1], window, stream);
    }
    Announcements.StuckWithoutLossIff(accounts, es, k);
  }
}
