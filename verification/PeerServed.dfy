/** Exactly when a peer that ran out of credit can be given more, on the connection and on a
    stream. */
module PeerServed {
  import opened Prelude
  import opened Chunks
  import opened ChunkHeap
  import opened Limits
  import opened RecvSpec
  import opened RecvCompleteness
  import opened ReadableBytes
  import opened FlowControl
  import opened PeerCredit

  /** The peer knows of more than it has used. */
  ghost predicate HasCredit(c: Conn, l: Announcements.Link, window: nat, stream: Option<nat>)
    requires Live(c, stream)
  {
    AccountWith(c, l, window, stream).used < l.known
  }

  /** Some continuation gives the peer credit. */
  ghost predicate CanBeServed(c: Conn, l: Announcements.Link, window: nat, stream: Option<nat>) {
    exists cs, ls, evs :: Serves(cs, ls, evs, c, l, window, stream)
  }

  ghost predicate Serves(cs: seq<Conn>, ls: seq<Announcements.Link>, evs: seq<Announcements.LinkEvent<Event>>,
                         c: Conn, l: Announcements.Link, window: nat, stream: Option<nat>) {
    && LinkedRun(cs, ls, evs, window, stream) && cs[0] == c && ls[0] == l
    && HasCredit(cs[|evs|], ls[|evs|], window, stream)
  }

  lemma ServedNow(c: Conn, l: Announcements.Link, window: nat, stream: Option<nat>)
    requires InOrder(c, l, window, stream) && HasCredit(c, l, window, stream)
    ensures CanBeServed(c, l, window, stream)
  {
    hide InOrder, HasCredit, Live;
    assert !c.closed && Live(c, stream) by { Opened(c, l, window, stream); }
    assert Serves([c], [l], [], c, l, window, stream);
  }

  lemma Opened(c: Conn, l: Announcements.Link, window: nat, stream: Option<nat>)
    requires InOrder(c, l, window, stream)
    ensures !c.closed && Live(c, stream)
  {
  }

  /** A step before a run that serves. */
  lemma ServedAfter(c: Conn, l: Announcements.Link, ev: Announcements.LinkEvent<Event>, d: Conn, m: Announcements.Link,
                    window: nat, stream: Option<nat>)
    requires InOrder(c, l, window, stream) && Linked(c, l, ev, d, m, stream) && CanBeServed(d, m, window, stream)
    ensures CanBeServed(c, l, window, stream)
  {
    hide InOrder, Linked, HasCredit, Live;
    Opened(c, l, window, stream);
    var cs, ls, evs :| Serves(cs, ls, evs, d, m, window, stream);
    assert Serves([c] + cs, [l] + ls, [ev] + evs, c, l, window, stream);
  }

  /** An announcement that tells the peer more. */
  lemma ServedByNews(c: Conn, l: Announcements.Link, v: nat, window: nat, stream: Option<nat>)
    requires InOrder(c, l, window, stream) && v in l.flight && v > l.known
    ensures CanBeServed(c, l, window, stream)
  {
    var m := l.(known := v);
    assert Linked(c, l, Announcements.Heard(v), c, m, stream);
    StepWith(c, l, Announcements.Heard(v), c, m, window, stream);
    ServedNow(c, m, window, stream);
    ServedAfter(c, l, Announcements.Heard(v), c, m, window, stream);
  }

  // ---------- the connection ----------

  lemma ServedByCommit(c: Conn, l: Announcements.Link, window: nat)
    requires InOrder(c, l, window, None) && c.rxData <= c.maxRxData && c.rxData <= l.known
    requires UpdateDue(c.rxData, c.maxRxData, c.maxRxDataNext)
    ensures CanBeServed(c, l, window, None)
  {
    var e := Announcements.Local(CommitConnection, true);
    var d, m := c.(maxRxData := c.maxRxDataNext), Announcements.Told(l, c.maxRxDataNext, true);
    assert Linked(c, l, e, d, m, None) by {
      assert forall id :: id in c.streams ==> c.streams[id].Valid();
    }
    StepWith(c, l, e, d, m, window, None);
    ServedByNews(d, m, c.maxRxDataNext, window, None);
    ServedAfter(c, l, e, d, m, window, None);
  }

  /** The step that reads all that is readable of a stream. */
  lemma ReadStep(c: Conn, window: nat, id: nat) returns (e: Event, d: Conn)
    requires Inv(c, window) && id in c.streams && Readable(c.streams[id]) > 0 && !c.closed
    ensures (forall i :: i in c.streams ==> c.streams[i].Valid()) && Does(c, e, d) && e.ReadStream? && e.id == id
    ensures |e.out| == Readable(c.streams[id]) && id in d.streams && !d.closed
    ensures d.streams[id] == c.streams[id].(data := d.streams[id].data, off := c.streams[id].off + |e.out|,
                                            maxDataNext := SaturatingAdd(c.streams[id].maxDataNext, |e.out|))
    ensures d == Updated(c, id, d.streams[id]).(maxRxDataNext := SaturatingAdd(c.maxRxDataNext, |e.out|),
                                               read := c.read + |e.out|, almostFull := d.almostFull)
    ensures id in d.almostFull <==> id in c.almostFull || AlmostFull(d.streams[id])
  {
    var s := c.streams[id];
    assert StreamInv(s, c.windows[id]);
    assert forall i :: i in c.streams ==> c.streams[i].Valid();
    ReadableIsReady(s);
    var out, t := ReadItAll(s);
    d := Updated(c, id, t).(maxRxDataNext := SaturatingAdd(c.maxRxDataNext, |out|), read := c.read + |out|,
                            almostFull := c.almostFull + if AlmostFull(t) then {id} else {});
    e := ReadStream(id, Readable(s), out);
    hide Popped, Recv.Valid, AlmostFull, Recv.Ready, Readable;
  }

  /** All that is readable of one stream is read. */
  lemma ReadOne(c: Conn, l: Announcements.Link, window: nat, id: nat)
    returns (e: Announcements.LinkEvent<Event>, d: Conn)
    requires InOrder(c, l, window, None) && id in c.streams && Readable(c.streams[id]) > 0
    ensures Linked(c, l, e, d, l, None) && InOrder(d, l, window, None)
    ensures d.rxData == c.rxData && d.maxRxData == c.maxRxData && AllReadable(d) < AllReadable(c)
    ensures SaturatingAdd(d.maxRxDataNext, AllReadable(d)) == SaturatingAdd(c.maxRxDataNext, AllReadable(c))
  {
    ConnNumbers(c, l, window);
    var local;
    local, d := ReadStep(c, window, id);
    ReadMoves(c, id, local.cap, local.out, d);
    hide Does, Recv.Valid, AlmostFull, Inv, Marks, Readable, AllReadable;
    e := Announcements.Local(local, false);
    StepWith(c, l, e, d, l, window, None);
  }

  lemma {:induction false} NotStuckIsServed(c: Conn, l: Announcements.Link, window: nat)
    requires InOrder(c, l, window, None) && !Announcements.Stuck(ConnAccount(c, l, window))
    ensures CanBeServed(c, l, window, None)
    decreases AllReadable(c)
  {
    hide InOrder, Linked;
    ConnNumbers(c, l, window);
    if c.rxData < l.known {
      ServedNow(c, l, window, None);
    } else if v :| v in l.flight && v > l.known {
      ServedByNews(c, l, v, window, None);
    } else if AllReadable(c) > 0 {
      var id := SomeCounts(c.streams, Readable);
      var e, d := ReadOne(c, l, window, id);
      NotStuckIsServed(d, l, window);
      ServedAfter(c, l, e, d, l, window, None);
    } else {
      ServedByCommit(c, l, window);
    }
  }

  lemma ConnNumbers(c: Conn, l: Announcements.Link, window: nat)
    requires InOrder(c, l, window, None)
    ensures c.rxData <= l.known <= c.maxRxData <= c.maxRxDataNext <= U64_MAX
  {
  }

  /** Exactly when a peer can be given credit on the connection: it has some, or an announcement
      under way tells it more, or an update is due once all that can be read is read. Otherwise
      it never sends a byte again. */
  lemma ConnectionServedIff(c: Conn, l: Announcements.Link, window: nat)
    requires InOrder(c, l, window, None)
    ensures c.rxData <= c.maxRxData
    ensures CanBeServed(c, l, window, None) <==>
              || c.rxData < l.known
              || (exists v :: v in l.flight && v > l.known)
              || UpdateDue(c.rxData, c.maxRxData, SaturatingAdd(c.maxRxDataNext, AllReadable(c)))
  {
    ConnNumbers(c, l, window);
    if Announcements.Stuck(ConnAccount(c, l, window)) {
      StuckNotServed(c, l, window, None);
    } else {
      NotStuckIsServed(c, l, window);
    }
    hide CanBeServed, InOrder;
  }

  lemma StuckNotServed(c: Conn, l: Announcements.Link, window: nat, stream: Option<nat>)
    requires Live(c, stream) && Announcements.Stuck(AccountWith(c, l, window, stream))
    ensures !CanBeServed(c, l, window, stream)
  {
    hide LinkedRun, Announcements.NothingToGrant;
    forall cs, ls, evs
      ensures !Serves(cs, ls, evs, c, l, window, stream)
    {
      if Serves(cs, ls, evs, c, l, window, stream) {
        assert LinkedRun(cs, ls, evs, window, stream);
        Lengths(cs, ls, evs, window, stream);
        StuckSendsNoMore(cs, ls, evs, window, stream, 0, |evs|);
      }
    }
  }

  lemma Lengths(cs: seq<Conn>, ls: seq<Announcements.Link>, evs: seq<Announcements.LinkEvent<Event>>, window: nat,
                stream: Option<nat>)
    requires LinkedRun(cs, ls, evs, window, stream)
    ensures |cs| == |ls| == |evs| + 1
  {
  }

  // ---------- one stream ----------

  /** Bytes of the stream below the highest one received that have not arrived. */
  function Gaps(s: Recv): int {
    s.len - s.off - Bytes(s.data)
  }

  /** The first missing byte arrives. */
  lemma FillGap(s: Recv) returns (b: RangeBuf, t: Recv)
    requires s.Valid() && s.finOff.None? && !s.drain && s.off + Readable(s) < s.len
    ensures |b.data| == 1 && Pushed(s, b, [s.data], Ok(()), t)
    ensures t == s.(data := t.data) && Gaps(t) == Gaps(s) - 1
  {
    hide ValidChunks, Pushed;
    var x := s.off + Readable(s);
    b := RangeBuf([0], x, false);
    ContiguousRun(s.data, s.off, s.len);
    forall k | k in s.data
      ensures k.MaxOff() <= b.off || b.MaxOff() <= k.off
    {
      assert !k.Covers(x);
    }
    PushMisses(s, b);
    BytesAppend(s.data, b);
    t := s.(data := s.data + [b]);
  }

  /** The peer sends the first missing byte. */
  lemma FillStep(c: Conn, window: nat, id: nat) returns (e: Event, d: Conn)
    requires Inv(c, window) && id in c.streams && !c.closed && c.rxData < c.maxRxData
    requires c.streams[id].finOff.None? && !c.streams[id].drain
    requires c.streams[id].off + Readable(c.streams[id]) < c.streams[id].len
    ensures (forall i :: i in c.streams ==> c.streams[i].Valid()) && Does(c, e, d) && !d.closed && e.StreamFrame?
    ensures id in d.streams && d == Updated(c, id, d.streams[id]).(rxData := c.rxData + 1)
    ensures d.streams[id] == c.streams[id].(data := d.streams[id].data)
    ensures Gaps(d.streams[id]) == Gaps(c.streams[id]) - 1
  {
    var s := c.streams[id];
    assert StreamInv(s, c.windows[id]);
    assert forall i :: i in c.streams ==> c.streams[i].Valid();
    var b, t := FillGap(s);
    e, d := StreamFrame(id, b, [s.data], Ok(())), Updated(c, id, t).(rxData := c.rxData + 1);
    hide Pushed, Recv.Valid, Readable, Inv;
  }

  lemma GapsCount(c: Conn, window: nat, id: nat)
    requires Inv(c, window) && id in c.streams
    ensures Gaps(c.streams[id]) >= 0
  {
    var s := c.streams[id];
    assert StreamInv(s, c.windows[id]);
    BytesFit(s.data, s.off, s.len);
  }

  lemma StreamNumbers(c: Conn, l: Announcements.Link, window: nat, id: nat)
    requires InOrder(c, l, window, Some(id))
    ensures Inv(c, window) && id in c.streams && id in c.windows && Mark(c, id)
    ensures var s := c.streams[id];
            && s.off <= s.len <= l.known <= s.maxData <= s.maxDataNext <= U64_MAX && c.windows[id] <= l.known
            && s.maxDataNext == SaturatingAdd(c.windows[id], s.off)
  {
    assert StreamInv(c.streams[id], c.windows[id]);
  }

  lemma MarkedIsServed(c: Conn, l: Announcements.Link, window: nat, id: nat)
    requires InOrder(c, l, window, Some(id)) && id in c.almostFull
    ensures CanBeServed(c, l, window, Some(id))
  {
    StreamNumbers(c, l, window, id);
    var s := c.streams[id];
    var e := Announcements.Local(CommitStream(id), true);
    var d := Updated(c, id, Committed(s)).(almostFull := c.almostFull - {id});
    var m := Announcements.Told(l, s.maxDataNext, true);
    assert Linked(c, l, e, d, m, Some(id)) by {
      assert forall i :: i in c.streams ==> c.streams[i].Valid();
    }
    hide Inv, Marks, Mark, Linked;
    StepWith(c, l, e, d, m, window, Some(id));
    ServedByNews(d, m, s.maxDataNext, window, Some(id));
    ServedAfter(c, l, e, d, m, window, Some(id));
  }

  /** When all is read, an update is due unless everything was granted. */
  lemma DueWhenRead(s: Recv, w: nat, known: nat)
    requires s.len == known && w <= known <= s.maxData <= s.maxDataNext && s.off == s.len
    requires s.maxDataNext == SaturatingAdd(w, s.off) && s.maxData < s.maxDataNext && s.finOff.None?
    ensures AlmostFull(s)
  {
  }

  lemma ReadAllIsServed(c: Conn, l: Announcements.Link, window: nat, id: nat)
    requires InOrder(c, l, window, Some(id)) && c.streams[id].finOff.None? && !c.streams[id].drain
    requires c.streams[id].len == l.known && c.streams[id].maxData < SaturatingAdd(c.windows[id], c.streams[id].len)
    requires c.streams[id].off + Readable(c.streams[id]) == c.streams[id].len
    ensures CanBeServed(c, l, window, Some(id))
  {
    hide Readable;
    StreamNumbers(c, l, window, id);
    var s := c.streams[id];
    if s.off == s.len {
      DueWhenRead(s, c.windows[id], l.known);
      MarkedIsServed(c, l, window, id);
    } else {
      var local, d := ReadStep(c, window, id);
      DueWhenRead(d.streams[id], c.windows[id], l.known);
      var e := Announcements.Local(local, false);
      assert Linked(c, l, e, d, l, Some(id)) by {
        hide Does, Inv, Recv.Valid, AlmostFull;
      }
      hide Linked, Does, Inv, Recv.Valid, AlmostFull;
      StepWith(c, l, e, d, l, window, Some(id));
      MarkedIsServed(d, l, window, id);
      ServedAfter(c, l, e, d, l, window, Some(id));
    }
  }

  lemma {:induction false} GrowableIsServed(c: Conn, l: Announcements.Link, window: nat, id: nat)
    requires InOrder(c, l, window, Some(id)) && c.streams[id].finOff.None? && !c.streams[id].drain
    requires c.streams[id].len == l.known && c.streams[id].maxData < SaturatingAdd(c.windows[id], c.streams[id].len)
    requires c.rxData + Gaps(c.streams[id]) <= c.maxRxData
    ensures CanBeServed(c, l, window, Some(id))
    decreases Gaps(c.streams[id])
  {
    hide Marks, Announcements.Inv;
    var s := c.streams[id];
    GapsCount(c, window, id);
    AllArrived(c, window, id);
    if s.off + Readable(s) < s.len {
      var local, d := FillStep(c, window, id);
      var e := Announcements.Local(local, false);
      assert Linked(c, l, e, d, l, Some(id)) by {
        hide Does, Inv, Recv.Valid;
      }
      hide Linked, Does, Inv, Recv.Valid, Readable;
      StepWith(c, l, e, d, l, window, Some(id));
      GrowableIsServed(d, l, window, id);
      ServedAfter(c, l, e, d, l, window, Some(id));
    } else {
      ReadAllIsServed(c, l, window, id);
    }
  }

  /** Without gaps everything is readable. */
  lemma AllArrived(c: Conn, window: nat, id: nat)
    requires Inv(c, window) && id in c.streams
    ensures var s := c.streams[id];
            s.off + Readable(s) <= s.len && (s.off + Readable(s) < s.len && s.finOff.None? ==> Gaps(s) > 0)
  {
    var s := c.streams[id];
    assert StreamInv(s, c.windows[id]);
    var x := s.off + Readable(s);
    if x < s.len && s.finOff.None? {
      ContiguousRun(s.data, s.off, s.len);
      var b := RangeBuf([0], x, false);
      forall k | k in s.data
        ensures Separate(k, b) && k.off != b.off
      {
        assert !k.Covers(x) && k.data != [];
        assert k.Covers(k.off);
      }
      AppendApart(s.data, b);
      BytesAppend(s.data, b);
      BytesFit(s.data + [b], s.off, s.len);
    }
  }

  /** Exactly when a peer can be given credit on a stream: it has some, or an announcement under
      way tells it more, or the stream is marked for an update, or less was granted than the
      initial window and all that was received, and the stream is read and has no end yet. Gaps
      are filled by the peer, for which the connection must have room. */
  lemma StreamServedIff(c: Conn, l: Announcements.Link, window: nat, id: nat)
    requires InOrder(c, l, window, Some(id)) && c.rxData + Gaps(c.streams[id]) <= c.maxRxData
    ensures var s := c.streams[id];
            CanBeServed(c, l, window, Some(id)) <==>
              || s.len < l.known
              || (exists v :: v in l.flight && v > l.known)
              || id in c.almostFull
              || (s.finOff.None? && !s.drain && s.maxData < SaturatingAdd(c.windows[id], s.len))
  {
    hide InOrder;
    StreamNumbers(c, l, window, id);
    var s := c.streams[id];
    if s.len < l.known {
      ServedNow(c, l, window, Some(id));
    } else if v :| v in l.flight && v > l.known {
      ServedByNews(c, l, v, window, Some(id));
    } else if id in c.almostFull {
      MarkedIsServed(c, l, window, id);
    } else if s.finOff.None? && !s.drain && s.maxData < SaturatingAdd(c.windows[id], s.len) {
      GrowableIsServed(c, l, window, id);
    } else {
      NothingLeft(c, l, window, id);
      StuckNotServed(c, l, window, Some(id));
    }
  }

  lemma NothingLeft(c: Conn, l: Announcements.Link, window: nat, id: nat)
    requires InOrder(c, l, window, Some(id)) && c.streams[id].len == l.known && id !in c.almostFull
    requires forall v :: v in l.flight ==> v <= l.known
    requires c.streams[id].finOff.Some? || c.streams[id].drain
             || c.streams[id].maxData >= SaturatingAdd(c.windows[id], c.streams[id].len)
    ensures Live(c, Some(id)) && Announcements.Stuck(AccountWith(c, l, window, Some(id)))
  {
    StreamNumbers(c, l, window, id);
  }
}
