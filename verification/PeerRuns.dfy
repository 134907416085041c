/** Two runs in which a peer is stuck: on a stream because an update was not sent, and on the
    connection because a block was canceled. */
module PeerRuns {
  import opened Prelude
  import opened Chunks
  import opened RecvSpec
  import opened FlowControl
  import opened PeerCredit

  // ---------- an update that is not sent ----------

  /** A stream with a window of one byte: the byte is received, read, and the limit committed. */
  function Got(f: RangeBuf): Recv {
    Initial(1).(data := [f], len := 1)
  }

  function Done(): Recv {
    Recv([], 1, 1, 1, 2, None, false)
  }

  predicate OneByte(f: RangeBuf) {
    |f.data| == 1 && f.off == 0 && !f.fin
  }

  lemma ByteArrives(f: RangeBuf)
    requires OneByte(f)
    ensures Initial(1).Valid() && Pushed(Initial(1), f, [[]], Ok(()), Got(f))
  {
    assert Pass([], f, None) == Fits(f, None);
    assert [] + [f] == [f];
  }

  lemma HoldsOnlyByte(f: RangeBuf)
    requires OneByte(f)
    ensures forall x, v :: Holds([f], x, v) <==> x == 0 && v == f.data[0]
    ensures forall x, v :: !Holds([], x, v)
    ensures !Has([f], 1)
  {
    forall x, v
      ensures Holds([f], x, v) <==> x == 0 && v == f.data[0]
    {
      HoldsParts([f], f, [], x, v);
    }
  }

  lemma ByteIsRead(f: RangeBuf)
    requires OneByte(f)
    ensures Got(f).Valid() && Got(f).Ready() && Popped(Got(f), 1, f.data, Done())
  {
    HoldsOnlyByte(f);
    assert Bytes([f]) == 1 + Bytes([f][1..]);
    hide Holds;
  }

  /** A connection with this stream only. */
  function Single(window: nat, id: nat, s: Recv, marks: set<nat>, rxData: nat, next: nat, read: nat): Conn {
    Conn(rxData, window, next, map[id := s], map[id := 1], marks, read, false)
  }

  function Opened(window: nat, id: nat): Conn {
    Single(window, id, Initial(1), {}, 0, window, 0)
  }

  function Full(window: nat, id: nat, f: RangeBuf): Conn {
    Single(window, id, Got(f), {}, 1, window, 0)
  }

  function Read(window: nat, id: nat): Conn {
    Single(window, id, Done(), {id}, 1, SaturatingAdd(window, 1), 1)
  }

  function Granted(window: nat, id: nat): Conn {
    Single(window, id, Committed(Done()), {}, 1, SaturatingAdd(window, 1), 1)
  }

  lemma SingleStep(a: Conn, b: Conn, e: Event, id: nat, l: Announcements.Link)
    requires (forall i :: i in a.streams ==> a.streams[i].Valid()) && Does(a, e, b)
    requires id in a.streams && id in b.streams && b.streams[id].len <= l.known
    ensures Linked(a, l, Announcements.Local(e, false), b, l, Some(id))
  {
    hide Does;
  }

  lemma FirstByte(f: RangeBuf, window: nat, id: nat, l: Announcements.Link)
    requires OneByte(f) && 1 <= window <= U64_MAX && l.known == 1
    ensures Linked(Opened(window, id), l, Announcements.Local(StreamFrame(id, f, [[]], Ok(())), false),
                   Full(window, id, f), l, Some(id))
  {
    ByteArrives(f);
    hide Pushed, Recv.Valid;
    assert Opened(window, id).streams[id := Got(f)] == map[id := Got(f)];
    SingleStep(Opened(window, id), Full(window, id, f), StreamFrame(id, f, [[]], Ok(())), id, l);
  }

  lemma ByteRead(f: RangeBuf, window: nat, id: nat, l: Announcements.Link)
    requires OneByte(f) && 1 <= window <= U64_MAX && l.known == 1
    ensures Linked(Full(window, id, f), l, Announcements.Local(ReadStream(id, 1, f.data), false),
                   Read(window, id), l, Some(id))
  {
    ByteIsRead(f);
    hide Popped, Recv.Valid, Recv.Ready;
    assert map[id := Got(f)][id := Done()] == map[id := Done()];
    SingleStep(Full(window, id, f), Read(window, id), ReadStream(id, 1, f.data), id, l);
  }

  lemma UpdateDropped(window: nat, id: nat, l: Announcements.Link)
    requires 1 <= window <= U64_MAX && l.known == 1
    ensures Linked(Read(window, id), l, Announcements.Local(CommitStream(id), false), Granted(window, id), l, Some(id))
  {
    assert map[id := Done()][id := Committed(Done())] == map[id := Committed(Done())];
    assert Done().Valid();
    SingleStep(Read(window, id), Granted(window, id), CommitStream(id), id, l);
  }

  lemma OpenedInOrder(window: nat, id: nat)
    requires 1 <= window <= U64_MAX
    ensures Does(Start(window), Open(id, 1), Opened(window, id))
    ensures InOrder(Opened(window, id), Announcements.Link(1, {}), window, Some(id))
  {
    StartMarks(window);
    assert map[][id := Initial(1)] == map[id := Initial(1)];
    assert map[][id := 1] == map[id := 1];
    hide Inv, Marks;
    AccountsStart(Start(window), window, id, 1, Opened(window, id), window);
  }

  lemma SinglesLive(window: nat, id: nat, f: RangeBuf)
    ensures !Opened(window, id).closed && Live(Opened(window, id), Some(id))
    ensures !Full(window, id, f).closed && Live(Full(window, id, f), Some(id))
    ensures !Read(window, id).closed && Live(Read(window, id), Some(id))
    ensures !Granted(window, id).closed && Live(Granted(window, id), Some(id))
  {
  }

  lemma GrantedStuck(window: nat, id: nat)
    ensures id in Granted(window, id).streams && Granted(window, id).streams[id].maxData == 2
    ensures id in Granted(window, id).windows
    ensures Announcements.Stuck(StreamAccount(Granted(window, id), id, Announcements.Link(1, {})))
  {
  }

  /** Three steps make a run. */
  lemma ThreeSteps(a: Conn, b: Conn, c: Conn, d: Conn, l: Announcements.Link, e1: Event, e2: Event, e3: Event,
                   window: nat, stream: Option<nat>)
    requires InOrder(a, l, window, stream)
    requires forall x :: x in {a, b, c, d} ==> !x.closed && Live(x, stream)
    requires Linked(a, l, Announcements.Local(e1, false), b, l, stream)
    requires Linked(b, l, Announcements.Local(e2, false), c, l, stream)
    requires Linked(c, l, Announcements.Local(e3, false), d, l, stream)
    ensures LinkedRun([a, b, c, d], [l, l, l, l],
                      [Announcements.Local(e1, false), Announcements.Local(e2, false), Announcements.Local(e3, false)],
                      window, stream)
  {
    hide InOrder, Linked, Live;
  }

  /** A run in which the peer is stuck on a stream: it uses up its window of one byte, the byte
      is read, and the MAX_STREAM_DATA frame that allows a second one does not fit and is
      dropped, after the limit was committed. */
  lemma UnsentUpdateBlocks(id: nat, f: RangeBuf, window: nat)
    requires OneByte(f) && 1 <= window <= U64_MAX
    ensures Does(Start(window), Open(id, 1), Opened(window, id))
    ensures var l := Announcements.Link(1, {});
            && LinkedRun([Opened(window, id), Full(window, id, f), Read(window, id), Granted(window, id)], [l, l, l, l],
                         [Announcements.Local(StreamFrame(id, f, [[]], Ok(())), false),
                          Announcements.Local(ReadStream(id, 1, f.data), false),
                          Announcements.Local(CommitStream(id), false)], window, Some(id))
            && Granted(window, id).streams[id].maxData == 2
            && Announcements.Stuck(StreamAccount(Granted(window, id), id, l))
  {
    var l := Announcements.Link(1, {});
    OpenedInOrder(window, id);
    FirstByte(f, window, id, l);
    ByteRead(f, window, id, l);
    UpdateDropped(window, id, l);
    SinglesLive(window, id, f);
    GrantedStuck(window, id);
    hide Does, InOrder, Linked, LinkedRun, Live, Opened, Full, Read, Announcements.Stuck, StreamAccount;
    ThreeSteps(Opened(window, id), Full(window, id, f), Read(window, id), Granted(window, id), l,
               StreamFrame(id, f, [[]], Ok(())), ReadStream(id, 1, f.data), CommitStream(id), window, Some(id));
  }

  // ---------- a canceled block ----------

  function NewStreamOf(w: nat, id: nat): Conn {
    Updated(Start(w), id, Initial(w)).(windows := map[id := w])
  }

  function Canceled(w: nat, id: nat): Conn {
    Updated(NewStreamOf(w, id), id, Initial(w).(drain := true, finOff := Some(w))).(rxData := w)
  }

  lemma CancelSteps(w: nat, id: nat, l: Announcements.Link)
    requires 1 <= w <= U64_MAX && l.known == w
    ensures Linked(Start(w), l, Announcements.Local(Open(id, w), true), NewStreamOf(w, id), l, None)
    ensures Linked(NewStreamOf(w, id), l, Announcements.Local(ResetFrame(id, w, true), true), Canceled(w, id), l, None)
  {
    assert map[][id := w] == map[id := w];
    var s := Initial(w);
    assert Shut(s) == Ok(s.(drain := true, data := []));
    assert ResetTo(Shut(s).value, w) == Ok((w, s.(drain := true, finOff := Some(w))));
  }

  lemma NothingToRead(w: nat, id: nat)
    requires 1 <= w <= U64_MAX
    ensures AllReadable(Canceled(w, id)) == 0
  {
    var l := Announcements.Link(w, {});
    StartMarks(w);
    CancelSteps(w, id, l);
    assert AllReadable(Start(w)) == 0;
    hide Total, AllReadable;
    ReadableMoves(Start(w), Open(id, w), NewStreamOf(w, id));
    ResetMoves(NewStreamOf(w, id), id, w, true, Canceled(w, id));
  }

  /** A run without any loss in which the peer is stuck on the connection: it cancels the first
      block, which is as large as the window. The bytes it never sent are charged and will never
      be read. */
  lemma CancelBlocks(w: nat, id: nat)
    returns (cs: seq<Conn>, ls: seq<Announcements.Link>, evs: seq<Announcements.LinkEvent<Event>>)
    requires 1 <= w <= U64_MAX
    ensures LinkedRun(cs, ls, evs, w, None) && cs[0] == Start(w) && (forall k :: 0 <= k < |evs| ==> Reaches(ls[k], evs[k]))
    ensures evs == [Announcements.Local(Open(id, w), true), Announcements.Local(ResetFrame(id, w, true), true)]
    ensures var a := ConnAccount(cs[2], ls[2], w); Announcements.Stuck(a) && a.Forfeited() == w
  {
    var l := Announcements.Link(w, {});
    CancelSteps(w, id, l);
    NothingToRead(w, id);
    StartInOrder(w);
    cs, ls := [Start(w), NewStreamOf(w, id), Canceled(w, id)], [l, l, l];
    evs := [Announcements.Local(Open(id, w), true), Announcements.Local(ResetFrame(id, w, true), true)];
    hide InOrder, Linked, AllReadable;
  }

  lemma StartInOrder(w: nat)
    requires w <= U64_MAX
    ensures InOrder(Start(w), Announcements.Link(w, {}), w, None)
  {
    StartMarks(w);
    hide Inv, Marks;
  }
}
