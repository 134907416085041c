/** Which streams exist, and how many may (src/stream.rs, `StreamMap`): creation under the
    stream limits, collection of completed streams, and limit updates. */
module StreamTables {
  import opened Limits
  import opened Prelude
  import opened Chunks
  import opened ChunkHeap
  import opened RangeSets
  import opened RecvSpec
  import opened SendSpec
  import D = Delivery

  datatype Stream = Stream(recv: Recv, send: Send, bidi: bool, local: bool) {
    predicate IsWritable() {
      !send.shutdown && send.finOff != Some(send.off) && send.off < send.maxData
    }

    predicate IsComplete() {
      if bidi then recv.IsFin() && send.IsComplete()
      else if local then send.IsComplete()
      else recv.IsFin()
    }
  }

  /** A stream is writable exactly when every write that is not empty takes a byte that will be
      sent. */
  lemma WritableIff(s: Stream, data: seq<byte>, fin: bool)
    requires s.send.Valid() && data != []
    ensures s.IsWritable() <==>
              !s.send.shutdown && Written(s.send, data, fin).Ok? && Written(s.send, data, fin).value.0 > 0
  {
    WriteTakes(s.send, data, fin);
  }

  /** The sending side is done: its end is known, and all of it was acknowledged. */
  ghost predicate AllAcked(s: Send) {
    && s.finOff == Some(s.off)
    && if s.off > 0 then forall x :: 0 <= x < s.off ==> Member(s.acked, x) else s.acked == [Range(0, 0)]
  }

  lemma AllAckedIff(s: Send)
    requires s.Valid()
    ensures s.IsComplete() <==> AllAcked(s)
  {
    if s.off > 0 {
      EqualsRangeIff(s.acked, s.off);
    }
  }

  /** A stream is complete exactly when each direction it has is: what the peer sends was handed
      out up to its end, and what this side wrote was acknowledged up to its end. */
  lemma CompleteMeans(s: Stream)
    requires s.send.Valid()
    ensures s.IsComplete() <==>
              (s.bidi || !s.local ==> s.recv.finOff == Some(s.recv.off)) && (s.bidi || s.local ==> AllAcked(s.send))
  {
    AllAckedIff(s.send);
  }

  predicate IsLocal(id: nat, isServer: bool) {
    (id % 2 == 1) == isServer
  }

  predicate IsBidi(id: nat) {
    id / 2 % 2 == 0
  }

  /** The two low bits of an ID: 0 and 1 are bidirectional, 1 and 3 opened by the server (section
      2.1 of RFC 9000); what is local to one end is not to the other. */
  lemma IdBits(id: nat)
    ensures IsBidi(id) <==> id % 4 < 2
    ensures IsLocal(id, true) <==> id % 4 == 1 || id % 4 == 3
    ensures IsLocal(id, false) <==> !IsLocal(id, true)
  {
  }

  /** The counters kept for one kind of stream, bidirectional or not. */
  datatype Quota = Quota(peerMax: nat, peerOpened: nat, localMax: nat, localMaxNext: nat, localOpened: nat)

  datatype Table = Table(streams: map<nat, Stream>, collected: set<nat>, bidi: Quota, uni: Quota,
                         writable: set<nat>)
  {
    function Of(bidirectional: bool): Quota {
      if bidirectional then bidi else uni
    }

    function With(bidirectional: bool, q: Quota): Table {
      if bidirectional then this.(bidi := q) else this.(uni := q)
    }
  }

  /** The initial flow-control limits from the transport parameters. */
  datatype Windows = Windows(bidiLocal: nat, bidiRemote: nat, uni: nat)

  function Start(maxBidi: nat, maxUni: nat): Table {
    Table(map[], {}, Quota(0, 0, maxBidi, maxBidi, 0), Quota(0, 0, maxUni, maxUni, 0), {})
  }

  function NewStream(id: nat, local: bool, ours: Windows, theirs: Windows): Stream {
    var (rx, tx) :=
      if local then (if IsBidi(id) then (ours.bidiLocal, theirs.bidiRemote) else (0, theirs.uni))
      else (if IsBidi(id) then (ours.bidiRemote, theirs.bidiLocal) else (ours.uni, 0));
    Stream(Initial(rx), SendSpec.Fresh(tx), IsBidi(id), local)
  }

  /** Both ends of a stream start with the same limits: what one may send is what the other
      accepts, so each direction starts a run of `Delivery` with equal windows, and an end that
      has no such direction gets none. The receiving end applies the limit that it announced
      for streams it opens itself, for those the peer opens, or for unidirectional ones. */
  lemma BothEndsAgree(id: nat, ours: Windows, theirs: Windows)
    ensures var here, there := NewStream(id, true, ours, theirs), NewStream(id, false, theirs, ours);
            && here.bidi == there.bidi == IsBidi(id) && here.local && !there.local
            && here.send == D.Start(there.recv.maxData, there.recv.maxData).send
            && there.recv == D.Start(here.send.maxData, here.send.maxData).recv
            && there.send == D.Start(here.recv.maxData, here.recv.maxData).send
            && here.recv == D.Start(there.send.maxData, there.send.maxData).recv
            && here.recv.maxData == (if IsBidi(id) then ours.bidiLocal else 0)
            && there.recv.maxData == if IsBidi(id) then theirs.bidiRemote else theirs.uni
  {
  }

  /** Counts one more stream of this kind, if the limit allows it. */
  function Opened(q: Quota, local: bool): Result<Quota> {
    if local then
      if q.localOpened >= q.peerMax then Err(StreamLimit) else Ok(q.(localOpened := q.localOpened + 1))
    else
      if q.peerOpened >= q.localMax then Err(StreamLimit) else Ok(q.(peerOpened := q.peerOpened + 1))
  }

  function MarkIfWritable(t: Table, id: nat): Table
    requires id in t.streams
  {
    if t.streams[id].IsWritable() then t.(writable := t.writable + {id}) else t
  }

  function GetOrCreate(t: Table, id: nat, local: bool, isServer: bool, ours: Windows, theirs: Windows): (r: Result<Table>)
    ensures r.Ok? ==> id in r.value.streams
  {
    if id in t.streams then Ok(MarkIfWritable(t, id))
    else if local != IsLocal(id, isServer) then Err(InvalidStreamState)
    else if id in t.collected then Err(Done)
    else
      var q :- Opened(t.Of(IsBidi(id)), IsLocal(id, isServer));
      var u := t.With(IsBidi(id), q);
      Ok(MarkIfWritable(u.(streams := u.streams[id := NewStream(id, local, ours, theirs)]), id))
  }

  /** What opening changes in the table besides the counters: a stream that was not there starts
      with its limits, all others stay, and it is listed as writable exactly when it is. */
  lemma OpenedStarts(t: Table, id: nat, local: bool, isServer: bool, ours: Windows, theirs: Windows)
    requires GetOrCreate(t, id, local, isServer, ours, theirs).Ok?
    ensures var u := GetOrCreate(t, id, local, isServer, ours, theirs).value;
            && u.streams == (if id in t.streams then t.streams
                             else t.streams[id := NewStream(id, local, ours, theirs)])
            && u.collected == t.collected
            && u.writable == t.writable + (if u.streams[id].IsWritable() then {id} else {})
            && (id in t.streams ==> u.bidi == t.bidi && u.uni == t.uni)
            && u.Of(!IsBidi(id)) == t.Of(!IsBidi(id))
  {
  }

  /** `collect`: drops a completed stream and gives the peer a new credit for it. */
  function Collect(t: Table, id: nat, local: bool): Table {
    var q := t.Of(IsBidi(id));
    var u := if local then t
             else t.With(IsBidi(id), q.(localMaxNext := SaturatingAdd(q.localMaxNext, 1)));
    u.(streams := u.streams - {id}, collected := u.collected + {id})
  }

  /** Collecting a stream moves it from the live ones to the collected ones and gives credit for
      one more of its kind, up to the largest value, if and only if the peer opened it. */
  lemma CollectOutcome(t: Table, id: nat, local: bool)
    requires id in t.streams && id !in t.collected
    ensures var u, bidi := Collect(t, id, local), IsBidi(id);
            && u.streams.Keys + {id} == t.streams.Keys && id !in u.streams && u.collected == t.collected + {id}
            && (forall other :: other in u.streams ==> u.streams[other] == t.streams[other])
            && u.writable == t.writable && u.Of(!bidi) == t.Of(!bidi)
            && u.Of(bidi) == t.Of(bidi).(localMaxNext := u.Of(bidi).localMaxNext)
            && (t.Of(bidi).localMaxNext < U64_MAX ==>
                  u.Of(bidi).localMaxNext - t.Of(bidi).localMaxNext == if local then 0 else 1)
  {
  }

  /** Commits the new limit, to be sent in a MAX_STREAMS frame. */
  function Commit(t: Table, bidirectional: bool): Table {
    var q := t.Of(bidirectional);
    t.With(bidirectional, q.(localMax := q.localMaxNext))
  }

  function PeerLimit(t: Table, bidirectional: bool, v: nat): Table {
    var q := t.Of(bidirectional);
    t.With(bidirectional, q.(peerMax := Max(q.peerMax, v)))
  }

  // ---------- the life of a stream ----------

  /** What the receive side of a stream can become: nothing is unread again, a final size stays,
      and a stream that is not read any more keeps its offsets. */
  predicate Later(s: Recv, t: Recv) {
    && s.off <= t.off && s.len <= t.len && (s.finOff.Some? ==> t.finOff == s.finOff)
    && (s.drain ==> t.drain && t.off == s.off && t.len == s.len)
  }

  predicate Sound(s: Recv) {
    s.off <= s.len && (s.finOff.Some? ==> s.len <= s.finOff.value)
  }

  /** Every operation on a receive buffer makes it a later one. */
  lemma OperationsAreLater(s: Recv, b: RangeBuf, orders: seq<seq<RangeBuf>>, r: Result<()>, cap: nat, out: seq<byte>,
                           size: nat, t: Recv)
    requires s.Valid()
    ensures Sound(s)
    ensures Pushed(s, b, orders, r, t) ==> Later(s, t) && Sound(t)
    ensures Popped(s, cap, out, t) && s.Ready() ==> Later(s, t) && Sound(t)
    ensures ResetTo(s, size).Ok? ==> Later(s, ResetTo(s, size).value.1) && Sound(ResetTo(s, size).value.1)
    ensures Shut(s).Ok? ==> Later(s, Shut(s).value) && Sound(Shut(s).value)
    ensures Later(s, Committed(s)) && Sound(Committed(s))
  {
    if Pushed(s, b, orders, r, t) {
      PushIsLater(s, b, orders, r, t);
    }
    hide Pushed, ValidChunks;
  }

  lemma PushIsLater(s: Recv, b: RangeBuf, orders: seq<seq<RangeBuf>>, r: Result<()>, t: Recv)
    requires s.Valid() && Pushed(s, b, orders, r, t)
    ensures Later(s, t) && Sound(t)
  {
    hide ValidChunks;
    PushSound(s, b, orders, r, t);
    if r.Ok? {
      PushGrows(s, b, orders, r, t);
    }
  }

  /** A stream is dropped when it is complete, after a read or an acknowledgement; so one that
      only the peer sends on is dropped only while it is read. */
  predicate Collectable(s: Stream) {
    s.IsComplete() && (!s.bidi && !s.local ==> !s.recv.drain)
  }

  /** The stream will never be collected: it is not read any more, and its end is not where
      reading stopped. */
  predicate Dead(s: Stream) {
    s.recv.drain && (!s.bidi || s.recv.off < s.recv.len || (s.recv.finOff.Some? && s.recv.finOff.value != s.recv.off))
  }

  predicate Evolves(s: Stream, t: Stream) {
    t.bidi == s.bidi && t.local == s.local && Later(s.recv, t.recv) && Sound(t.recv)
  }

  lemma DeadForever(s: Stream, t: Stream)
    requires Dead(s) && Evolves(s, t) && !s.local
    ensures Dead(t) && !Collectable(t)
  {
  }

  datatype Event =
    | Open(id: nat, local: bool, ours: Windows, theirs: Windows)
    | Change(id: nat, stream: Stream)
    | Complete(id: nat)
    | CommitLimit(bidi: bool)
    | LearnLimit(bidi: bool, v: nat)

  predicate Does(t: Table, e: Event, isServer: bool, t': Table) {
    match e
    case Open(id, local, ours, theirs) =>
      (match GetOrCreate(t, id, local, isServer, ours, theirs)
       case Ok(u) => t' == u
       case Err(_) => t' == t)
    case Change(id, s) =>
      id in t.streams && Evolves(t.streams[id], s) && t' == t.(streams := t.streams[id := s])
    case Complete(id) =>
      id in t.streams && Collectable(t.streams[id]) && t' == Collect(t, id, t.streams[id].local)
    case CommitLimit(bidi) =>
      && var q := t.Of(bidi);
      && q.peerOpened <= q.localMax && UpdateDue(q.peerOpened, q.localMax, q.localMaxNext)
      && t' == Commit(t, bidi)
    case LearnLimit(bidi, v) => t' == PeerLimit(t, bidi, v)
  }

  // ---------- the accounting ----------

  /** The streams of one kind that one side opened, among `ids`. */
  function Kind(ids: set<nat>, bidi: bool, local: bool, isServer: bool): set<nat> {
    set id | id in ids && IsBidi(id) == bidi && IsLocal(id, isServer) == local
  }

  ghost predicate QuotaInv(t: Table, bidi: bool, isServer: bool, initial: nat) {
    var q := t.Of(bidi);
    && q.peerOpened == |Kind(t.streams.Keys, bidi, false, isServer)| + |Kind(t.collected, bidi, false, isServer)|
    && q.localOpened == |Kind(t.streams.Keys, bidi, true, isServer)| + |Kind(t.collected, bidi, true, isServer)|
    && q.peerOpened <= q.localMax <= q.localMaxNext <= U64_MAX
    && initial <= q.localMax
    && q.localMaxNext == SaturatingAdd(initial, |Kind(t.collected, bidi, false, isServer)|)
    && q.localOpened <= q.peerMax
  }

  ghost predicate Typed(t: Table, isServer: bool) {
    forall id :: id in t.streams ==>
      t.streams[id].local == IsLocal(id, isServer) && t.streams[id].bidi == IsBidi(id) && Sound(t.streams[id].recv)
  }

  ghost predicate Inv(t: Table, isServer: bool, maxBidi: nat, maxUni: nat) {
    && t.streams.Keys !! t.collected
    && Typed(t, isServer)
    && QuotaInv(t, true, isServer, maxBidi)
    && QuotaInv(t, false, isServer, maxUni)
  }

  lemma KindAdd(ids: set<nat>, id: nat, bidi: bool, local: bool, isServer: bool)
    requires id !in ids
    ensures |Kind(ids + {id}, bidi, local, isServer)| ==
            |Kind(ids, bidi, local, isServer)|
            + if IsBidi(id) == bidi && IsLocal(id, isServer) == local then 1 else 0
  {
    var k, k' := Kind(ids, bidi, local, isServer), Kind(ids + {id}, bidi, local, isServer);
    if IsBidi(id) == bidi && IsLocal(id, isServer) == local {
      assert k' == k + {id};
    } else {
      assert k' == k;
    }
  }

  lemma OpenKeepsQuota(t: Table, id: nat, local: bool, ours: Windows, theirs: Windows, isServer: bool,
                       bidi: bool, initial: nat)
    requires QuotaInv(t, bidi, isServer, initial)
    requires GetOrCreate(t, id, local, isServer, ours, theirs).Ok?
    ensures QuotaInv(GetOrCreate(t, id, local, isServer, ours, theirs).value, bidi, isServer, initial)
  {
    hide Kind;
    var u := GetOrCreate(t, id, local, isServer, ours, theirs).value;
    if id !in t.streams {
      assert u.streams.Keys == t.streams.Keys + {id};
      KindAdd(t.streams.Keys, id, bidi, true, isServer);
      KindAdd(t.streams.Keys, id, bidi, false, isServer);
    }
  }

  lemma OpenKeeps(t: Table, id: nat, local: bool, ours: Windows, theirs: Windows, isServer: bool,
                  maxBidi: nat, maxUni: nat)
    requires Inv(t, isServer, maxBidi, maxUni)
    requires GetOrCreate(t, id, local, isServer, ours, theirs).Ok?
    ensures Inv(GetOrCreate(t, id, local, isServer, ours, theirs).value, isServer, maxBidi, maxUni)
  {
    hide QuotaInv, GetOrCreate;
    OpenKeepsQuota(t, id, local, ours, theirs, isServer, true, maxBidi);
    OpenKeepsQuota(t, id, local, ours, theirs, isServer, false, maxUni);
    OpenKeepsStreams(t, id, local, ours, theirs, isServer);
  }

  lemma OpenKeepsStreams(t: Table, id: nat, local: bool, ours: Windows, theirs: Windows, isServer: bool)
    requires GetOrCreate(t, id, local, isServer, ours, theirs).Ok? && t.streams.Keys !! t.collected && Typed(t, isServer)
    ensures var u := GetOrCreate(t, id, local, isServer, ours, theirs).value;
            u.streams.Keys !! u.collected && Typed(u, isServer)
  {
  }

  lemma OpenCollectsNothing(t: Table, id: nat, local: bool, ours: Windows, theirs: Windows, isServer: bool)
    requires GetOrCreate(t, id, local, isServer, ours, theirs).Ok?
    ensures GetOrCreate(t, id, local, isServer, ours, theirs).value.collected == t.collected
  {
  }

  lemma CollectKeepsQuota(t: Table, id: nat, isServer: bool, bidi: bool, initial: nat)
    requires QuotaInv(t, bidi, isServer, initial) && id in t.streams && id !in t.collected
    requires t.streams[id].local == IsLocal(id, isServer) && initial <= U64_MAX
    ensures QuotaInv(Collect(t, id, t.streams[id].local), bidi, isServer, initial)
  {
    hide Kind;
    var u := Collect(t, id, t.streams[id].local);
    assert t.streams.Keys == u.streams.Keys + {id};
    KindAdd(u.streams.Keys, id, bidi, true, isServer);
    KindAdd(u.streams.Keys, id, bidi, false, isServer);
    KindAdd(t.collected, id, bidi, true, isServer);
    KindAdd(t.collected, id, bidi, false, isServer);
  }

  lemma CollectKeeps(t: Table, id: nat, isServer: bool, maxBidi: nat, maxUni: nat)
    requires Inv(t, isServer, maxBidi, maxUni) && id in t.streams
    ensures Inv(Collect(t, id, t.streams[id].local), isServer, maxBidi, maxUni)
  {
    hide Kind;
    CollectKeepsQuota(t, id, isServer, true, maxBidi);
    CollectKeepsQuota(t, id, isServer, false, maxUni);
    hide QuotaInv;
  }

  lemma ChangeKeeps(t: Table, id: nat, s: Stream, isServer: bool, maxBidi: nat, maxUni: nat)
    requires Inv(t, isServer, maxBidi, maxUni) && id in t.streams && Evolves(t.streams[id], s)
    ensures Inv(t.(streams := t.streams[id := s]), isServer, maxBidi, maxUni)
  {
    hide Kind;
    assert t.streams[id := s].Keys == t.streams.Keys;
  }

  lemma CollectedGrows(t: Table, id: nat)
    requires id in t.streams
    ensures t.collected <= Collect(t, id, t.streams[id].local).collected
  {
  }

  lemma StepKeeps(t: Table, e: Event, isServer: bool, t': Table, maxBidi: nat, maxUni: nat)
    requires Inv(t, isServer, maxBidi, maxUni) && Does(t, e, isServer, t')
    ensures Inv(t', isServer, maxBidi, maxUni) && t.collected <= t'.collected
  {
    hide Kind, GetOrCreate, Collect;
    match e
    case Open(id, local, ours, theirs) =>
      if GetOrCreate(t, id, local, isServer, ours, theirs).Ok? {
        OpenKeeps(t, id, local, ours, theirs, isServer, maxBidi, maxUni);
        OpenCollectsNothing(t, id, local, ours, theirs, isServer);
      }
    case Change(id, s) => ChangeKeeps(t, id, s, isServer, maxBidi, maxUni);
    case Complete(id) =>
      CollectKeeps(t, id, isServer, maxBidi, maxUni);
      CollectedGrows(t, id);
    case _ =>
  }

  // ---------- whole runs ----------

  ghost predicate Run(ts: seq<Table>, es: seq<Event>, isServer: bool, maxBidi: nat, maxUni: nat) {
    && |ts| == |es| + 1 && ts[0] == Start(maxBidi, maxUni)
    && forall k :: 0 <= k < |es| ==> Does(ts[k], es[k], isServer, ts[k + 1])
  }

  lemma {:induction false} RunInv(ts: seq<Table>, es: seq<Event>, isServer: bool, maxBidi: nat, maxUni: nat, k: nat)
    requires Run(ts, es, isServer, maxBidi, maxUni) && k < |ts| && maxBidi <= U64_MAX && maxUni <= U64_MAX
    ensures Inv(ts[k], isServer, maxBidi, maxUni)
  {
    if k > 0 {
      RunInv(ts, es, isServer, maxBidi, maxUni, k - 1);
      assert Does(ts[k - 1], es[k - 1], isServer, ts[k]);
      StepKeeps(ts[k - 1], es[k - 1], isServer, ts[k], maxBidi, maxUni);
    }
  }

  /** The peer never has more streams of a kind alive than the initial limit, whatever is
      created, collected and announced. */
  lemma ConcurrencyBounded(ts: seq<Table>, es: seq<Event>, isServer: bool, maxBidi: nat, maxUni: nat, k: nat, bidi: bool)
    requires Run(ts, es, isServer, maxBidi, maxUni) && k < |ts| && maxBidi <= U64_MAX && maxUni <= U64_MAX
    ensures |Kind(ts[k].streams.Keys, bidi, false, isServer)| <= if bidi then maxBidi else maxUni
    ensures |Kind(ts[k].streams.Keys, bidi, true, isServer)| <= ts[k].Of(bidi).peerMax
    ensures ts[k].streams.Keys !! ts[k].collected
    ensures ts[k].Of(bidi).peerOpened <= ts[k].Of(bidi).localMax <= ts[k].Of(bidi).localMaxNext
  {
    RunInv(ts, es, isServer, maxBidi, maxUni, k);
  }

  /** Once collected, an ID is never a live stream again. */
  lemma {:induction false} CollectedForever(ts: seq<Table>, es: seq<Event>, isServer: bool, maxBidi: nat, maxUni: nat,
                                            j: nat, k: nat, id: nat)
    requires Run(ts, es, isServer, maxBidi, maxUni) && j <= k < |ts| && maxBidi <= U64_MAX && maxUni <= U64_MAX
    requires id in ts[j].collected
    ensures id in ts[k].collected && id !in ts[k].streams
    decreases k - j
  {
    RunInv(ts, es, isServer, maxBidi, maxUni, j);
    if j < k {
      assert Does(ts[j], es[j], isServer, ts[j + 1]);
      StepKeeps(ts[j], es[j], isServer, ts[j + 1], maxBidi, maxUni);
      CollectedForever(ts, es, isServer, maxBidi, maxUni, j + 1, k, id);
    }
  }

  /** When a peer opens a stream, exactly which error it gets. */
  lemma PeerOpenOutcome(t: Table, id: nat, isServer: bool, ours: Windows, theirs: Windows, maxBidi: nat, maxUni: nat)
    requires Inv(t, isServer, maxBidi, maxUni) && id !in t.streams
    ensures var r := GetOrCreate(t, id, false, isServer, ours, theirs);
            && (r == Err(InvalidStreamState) <==> IsLocal(id, isServer))
            && (r == Err(Done) <==> !IsLocal(id, isServer) && id in t.collected)
            && (r == Err(StreamLimit) <==>
                  (&& !IsLocal(id, isServer) && id !in t.collected
                   && |Kind(t.streams.Keys, IsBidi(id), false, isServer)|
                      + |Kind(t.collected, IsBidi(id), false, isServer)| == t.Of(IsBidi(id)).localMax))
            && (r.Err? ==> r.error in {InvalidStreamState, Done, StreamLimit})
  {
  }

  /** And when this endpoint opens one: the limit is the largest that the peer announced. */
  lemma LocalOpenOutcome(t: Table, id: nat, isServer: bool, ours: Windows, theirs: Windows, maxBidi: nat, maxUni: nat)
    requires Inv(t, isServer, maxBidi, maxUni) && id !in t.streams
    ensures var r := GetOrCreate(t, id, true, isServer, ours, theirs);
            && (r == Err(InvalidStreamState) <==> !IsLocal(id, isServer))
            && (r == Err(Done) <==> IsLocal(id, isServer) && id in t.collected)
            && (r == Err(StreamLimit) <==>
                  (&& IsLocal(id, isServer) && id !in t.collected
                   && |Kind(t.streams.Keys, IsBidi(id), true, isServer)|
                      + |Kind(t.collected, IsBidi(id), true, isServer)| == t.Of(IsBidi(id)).peerMax))
            && (r.Err? ==> r.error in {InvalidStreamState, Done, StreamLimit})
  {
  }

  ghost predicate Announced(e: Event, bidi: bool, v: nat) {
    e == LearnLimit(bidi, v)
  }

  lemma LimitStep(t: Table, e: Event, isServer: bool, t': Table, bidi: bool)
    requires Does(t, e, isServer, t')
    ensures t'.Of(bidi).peerMax ==
              if e.LearnLimit? && e.bidi == bidi then Max(t.Of(bidi).peerMax, e.v) else t.Of(bidi).peerMax
  {
    hide Collectable, Evolves;
  }

  /** In every run the limit for streams of this endpoint is the largest the peer announced. */
  lemma {:induction false} PeerLimitIsLargest(ts: seq<Table>, es: seq<Event>, isServer: bool, maxBidi: nat, maxUni: nat,
                                              k: nat, bidi: bool)
    requires Run(ts, es, isServer, maxBidi, maxUni) && k < |ts|
    ensures forall j, v: nat :: 0 <= j < k && Announced(es[j], bidi, v) ==> v <= ts[k].Of(bidi).peerMax
    ensures ts[k].Of(bidi).peerMax == 0 || exists j :: 0 <= j < k && Announced(es[j], bidi, ts[k].Of(bidi).peerMax)
  {
    if k > 0 {
      hide Does;
      PeerLimitIsLargest(ts, es, isServer, maxBidi, maxUni, k - 1, bidi);
      LimitStep(ts[k - 1], es[k - 1], isServer, ts[k], bidi);
      if es[k - 1].LearnLimit? {
        assert Announced(es[k - 1], es[k - 1].bidi, es[k - 1].v);
      }
    }
  }
}
