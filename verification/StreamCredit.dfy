/** The number of streams that the peer knows it may open: when a peer that has opened all of
    them can open more (src/lib.rs, the MAX_STREAMS frames). */
module StreamCredit {
  import opened Limits
  import opened Prelude
  import opened RangeSets
  import opened StreamTables
  import Announcements

  // ---------- accounts ----------

  /** The peer's streams of one kind that can still be collected. */
  function Alive(t: Table, bidi: bool, isServer: bool): set<nat> {
    set id | id in t.streams && IsBidi(id) == bidi && !IsLocal(id, isServer) && !Dead(t.streams[id])
  }

  /** The peer's account for one kind of stream: streams opened, streams collected, and streams
      that can still be collected. */
  function AccountOf(t: Table, l: Announcements.Link, bidi: bool, isServer: bool, initial: nat): Announcements.Account {
    var q := t.Of(bidi);
    Announcements.Account(initial, q.peerOpened, |Kind(t.collected, bidi, false, isServer)|, |Alive(t, bidi, isServer)|,
                          q.localMax, q.localMaxNext, false, l.known, l.flight)
  }

  /** A step of the table together with the announcements of one kind, against a peer that
      opens no more streams than it knows it may. A MAX_STREAMS frame is always sent. */
  ghost predicate Linked(t: Table, l: Announcements.Link, ev: Announcements.LinkEvent<Event>,
                         t': Table, l': Announcements.Link, bidi: bool, isServer: bool) {
    && Announcements.Carries(l, ev, l')
    && match ev
       case Local(e, sent) =>
         && Does(t, e, isServer, t') && t'.Of(bidi).peerOpened <= l.known
         && if e == CommitLimit(bidi) then sent && l' == Announcements.Told(l, t.Of(bidi).localMaxNext, sent) else l' == l
       case _ => t' == t
  }

  /** The kind of stream in question, and its initial limit. */
  datatype Side = Side(bidi: bool, isServer: bool, maxBidi: nat, maxUni: nat) {
    function Initially(): nat {
      if bidi then maxBidi else maxUni
    }
  }

  function Account(t: Table, l: Announcements.Link, side: Side): Announcements.Account {
    AccountOf(t, l, side.bidi, side.isServer, side.Initially())
  }

  ghost predicate InOrder(t: Table, l: Announcements.Link, side: Side) {
    Inv(t, side.isServer, side.maxBidi, side.maxUni) && Announcements.Inv(Account(t, l, side))
  }

  ghost predicate LinkedRun(ts: seq<Table>, ls: seq<Announcements.Link>, evs: seq<Announcements.LinkEvent<Event>>, side: Side) {
    && |ts| == |ls| == |evs| + 1 && InOrder(ts[0], ls[0], side)
    && forall k :: 0 <= k < |evs| ==> Linked(ts[k], ls[k], evs[k], ts[k + 1], ls[k + 1], side.bidi, side.isServer)
  }

  // ---------- every step is a step of the account ----------

  function Booked(t: Table, ev: Announcements.LinkEvent<Event>, t': Table, bidi: bool): Announcements.Event {
    match ev
    case Local(Open(_, _, _, _), _) => Announcements.Use(Max(0, t'.Of(bidi).peerOpened - t.Of(bidi).peerOpened))
    case Local(Complete(id), _) =>
      if id in t.streams && IsBidi(id) == bidi && !t.streams[id].local then Announcements.Return(1)
      else Announcements.Use(0)
    case Local(CommitLimit(b), sent) => if b == bidi then Announcements.Announce(sent) else Announcements.Use(0)
    case Local(_, _) => Announcements.Use(0)
    case Heard(max) => Announcements.Arrive(max)
    case Lost(max) => Announcements.Vanish(max)
  }

  /** What can be collected was opened and not collected. */
  lemma AliveWithin(t: Table, bidi: bool, isServer: bool, maxBidi: nat, maxUni: nat)
    requires Inv(t, isServer, maxBidi, maxUni)
    ensures |Kind(t.collected, bidi, false, isServer)| + |Alive(t, bidi, isServer)| <= t.Of(bidi).peerOpened
  {
    Subset(Alive(t, bidi, isServer), Kind(t.streams.Keys, bidi, false, isServer));
  }

  lemma {:induction false} Subset(a: set<nat>, b: set<nat>)
    requires a <= b
    ensures |a| <= |b|
  {
    if a != {} {
      var x :| x in a;
      Subset(a - {x}, b - {x});
    }
  }

  /** Opening a stream changes nothing but the number of streams opened, and a new stream. */
  lemma OpenBooked(t: Table, id: nat, local: bool, ours: Windows, theirs: Windows, bidi: bool, isServer: bool)
    requires GetOrCreate(t, id, local, isServer, ours, theirs).Ok?
    ensures var u := GetOrCreate(t, id, local, isServer, ours, theirs).value;
            && u.collected == t.collected && t.Of(bidi).peerOpened <= u.Of(bidi).peerOpened
            && u.Of(bidi).localMax == t.Of(bidi).localMax && u.Of(bidi).localMaxNext == t.Of(bidi).localMaxNext
            && (u.Of(bidi).peerOpened == t.Of(bidi).peerOpened ==> Alive(u, bidi, isServer) == Alive(t, bidi, isServer))
  {
  }

  lemma ChangeBooked(t: Table, id: nat, s: Stream, bidi: bool, isServer: bool, maxBidi: nat, maxUni: nat)
    requires Inv(t, isServer, maxBidi, maxUni) && id in t.streams && Evolves(t.streams[id], s)
    ensures |Alive(t.(streams := t.streams[id := s]), bidi, isServer)| <= |Alive(t, bidi, isServer)|
  {
    hide QuotaInv, Later, Sound;
    var u := t.(streams := t.streams[id := s]);
    forall i | i in Alive(u, bidi, isServer)
      ensures i in Alive(t, bidi, isServer)
    {
      if i == id && Dead(t.streams[id]) {
        DeadForever(t.streams[id], s);
      }
    }
    Subset(Alive(u, bidi, isServer), Alive(t, bidi, isServer));
  }

  lemma NotDead(s: Stream)
    requires Collectable(s) && Sound(s.recv) && !s.local
    ensures !Dead(s)
  {
  }

  lemma CollectAlive(t: Table, id: nat, bidi: bool, isServer: bool)
    requires Typed(t, isServer) && id in t.streams && Collectable(t.streams[id])
    ensures var u := Collect(t, id, t.streams[id].local);
            |Alive(t, bidi, isServer)| ==
              |Alive(u, bidi, isServer)| + if IsBidi(id) == bidi && !t.streams[id].local then 1 else 0
  {
    var u := Collect(t, id, t.streams[id].local);
    assert u.streams == t.streams - {id};
    if IsBidi(id) == bidi && !t.streams[id].local {
      NotDead(t.streams[id]);
    }
    hide Dead, Collectable, Sound, Collect;
    var was, now := Alive(t, bidi, isServer), Alive(u, bidi, isServer);
    assert now == was - {id};
    assert id in was <==> IsBidi(id) == bidi && !t.streams[id].local;
  }

  /** Collecting a stream of the peer gives back one. */
  lemma CollectBooked(t: Table, id: nat, bidi: bool, isServer: bool, maxBidi: nat, maxUni: nat)
    requires Inv(t, isServer, maxBidi, maxUni) && id in t.streams && Collectable(t.streams[id])
    ensures var one := if IsBidi(id) == bidi && !t.streams[id].local then 1 else 0;
            var n, u := |Kind(t.collected, bidi, false, isServer)|, Collect(t, id, t.streams[id].local);
            && |Kind(u.collected, bidi, false, isServer)| == n + one
            && |Alive(u, bidi, isServer)| + one == |Alive(t, bidi, isServer)|
            && u.Of(bidi).peerOpened == t.Of(bidi).peerOpened && u.Of(bidi).localMax == t.Of(bidi).localMax
            && u.Of(bidi).localMaxNext == if one == 1 then SaturatingAdd(t.Of(bidi).localMaxNext, 1) else t.Of(bidi).localMaxNext
  {
    hide Kind, QuotaInv, Alive, Dead, Collectable, Sound;
    KindAdd(t.collected, id, bidi, false, isServer);
    CollectAlive(t, id, bidi, isServer);
  }

  lemma CommitBooked(t: Table, b: bool, bidi: bool, isServer: bool)
    ensures var u := Commit(t, b);
            && u.collected == t.collected && Alive(u, bidi, isServer) == Alive(t, bidi, isServer)
            && u.Of(bidi) == if b == bidi then t.Of(bidi).(localMax := t.Of(bidi).localMaxNext) else t.Of(bidi)
  {
  }

  lemma LearnBooked(t: Table, b: bool, v: nat, bidi: bool, isServer: bool)
    ensures var u := PeerLimit(t, b, v);
            && u.collected == t.collected && Alive(u, bidi, isServer) == Alive(t, bidi, isServer)
            && u.Of(bidi) == t.Of(bidi).(peerMax := u.Of(bidi).peerMax)
  {
  }

  lemma StepIsBooked(t: Table, l: Announcements.Link, ev: Announcements.LinkEvent<Event>,
                     t': Table, l': Announcements.Link, side: Side)
    requires InOrder(t, l, side) && Linked(t, l, ev, t', l', side.bidi, side.isServer)
    requires Inv(t', side.isServer, side.maxBidi, side.maxUni)
    ensures Announcements.Does(Account(t, l, side), Booked(t, ev, t', side.bidi), Account(t', l', side))
  {
    hide Kind, Inv, GetOrCreate, Collect, Commit, PeerLimit, Alive, Evolves, Collectable;
    var bidi, isServer := side.bidi, side.isServer;
    AliveWithin(t', bidi, isServer, side.maxBidi, side.maxUni);
    match ev
    case Local(Open(id, local, ours, theirs), _) =>
      if GetOrCreate(t, id, local, isServer, ours, theirs).Ok? {
        OpenBooked(t, id, local, ours, theirs, bidi, isServer);
      }
    case Local(Change(id, s), _) => ChangeBooked(t, id, s, bidi, isServer, side.maxBidi, side.maxUni);
    case Local(Complete(id), _) => CollectBooked(t, id, bidi, isServer, side.maxBidi, side.maxUni);
    case Local(CommitLimit(b), _) => CommitBooked(t, b, bidi, isServer);
    case Local(LearnLimit(b, v), _) => LearnBooked(t, b, v, bidi, isServer);
    case _ =>
  }

  /** Every step keeps the invariant, and is a step of the account. */
  lemma StepWith(t: Table, l: Announcements.Link, ev: Announcements.LinkEvent<Event>,
                 t': Table, l': Announcements.Link, side: Side)
    requires InOrder(t, l, side) && Linked(t, l, ev, t', l', side.bidi, side.isServer)
    ensures InOrder(t', l', side)
    ensures Announcements.Does(Account(t, l, side), Booked(t, ev, t', side.bidi), Account(t', l', side))
  {
    hide Inv, Does, Account, Booked, Announcements.Inv, Announcements.Does;
    if ev.Local? {
      StepKeeps(t, ev.e, side.isServer, t', side.maxBidi, side.maxUni);
    }
    StepIsBooked(t, l, ev, t', l', side);
    Announcements.StepKeeps(Account(t, l, side), Booked(t, ev, t', side.bidi), Account(t', l', side));
  }

  // ---------- whole runs ----------

  lemma StartInOrder(side: Side)
    requires side.maxBidi <= U64_MAX && side.maxUni <= U64_MAX
    ensures var t, l := Start(side.maxBidi, side.maxUni), Announcements.Link(side.Initially(), {});
            Account(t, l, side) == Announcements.Start(side.Initially()) && InOrder(t, l, side)
  {
    var t := Start(side.maxBidi, side.maxUni);
    assert forall b, k :: Kind({}, b, k, side.isServer) == {};
    assert Alive(t, side.bidi, side.isServer) == {};
  }

  lemma {:induction false} RunInOrder(ts: seq<Table>, ls: seq<Announcements.Link>,
                                      evs: seq<Announcements.LinkEvent<Event>>, side: Side, k: nat)
    requires LinkedRun(ts, ls, evs, side) && k < |ts|
    ensures InOrder(ts[k], ls[k], side)
  {
    hide InOrder, Linked, Announcements.Does;
    if k > 0 {
      RunInOrder(ts, ls, evs, side, k - 1);
      StepWith(ts[k - 1], ls[k - 1], evs[k - 1], ts[k], ls[k], side);
    }
  }

  /** The run of the table is a run of the account. */
  lemma AccountsRun(ts: seq<Table>, ls: seq<Announcements.Link>, evs: seq<Announcements.LinkEvent<Event>>, side: Side)
    returns (accounts: seq<Announcements.Account>, es: seq<Announcements.Event>)
    requires LinkedRun(ts, ls, evs, side)
    ensures |accounts| == |ts| && |es| == |evs| && Announcements.Run(accounts, es) && Announcements.Inv(accounts[0])
    ensures forall k :: 0 <= k < |ts| ==> accounts[k] == Account(ts[k], ls[k], side)
    ensures forall k :: 0 <= k < |evs| ==> es[k] == Booked(ts[k], evs[k], ts[k + 1], side.bidi)
  {
    hide Inv, Linked, Account, Booked, Announcements.Inv, Announcements.Does;
    accounts := seq(|ts|, k requires 0 <= k < |ts| => Account(ts[k], ls[k], side));
    es := seq(|evs|, k requires 0 <= k < |evs| => Booked(ts[k], evs[k], ts[k + 1], side.bidi));
    forall k | 0 <= k < |evs|
      ensures Announcements.Does(accounts[k], es[k], accounts[k + 1])
    {
      RunInOrder(ts, ls, evs, side, k);
      StepWith(ts[k], ls[k], evs[k], ts[k + 1], ls[k + 1], side);
    }
  }

  /** A peer that is stuck opens no stream of this kind any more, whatever happens. */
  lemma StuckOpensNoMore(ts: seq<Table>, ls: seq<Announcements.Link>, evs: seq<Announcements.LinkEvent<Event>>, side: Side,
                         j: nat, k: nat)
    requires LinkedRun(ts, ls, evs, side) && j <= k < |ts| && Announcements.Stuck(Account(ts[j], ls[j], side))
    ensures Announcements.Stuck(Account(ts[k], ls[k], side))
    ensures ts[k].Of(side.bidi).peerOpened == ts[j].Of(side.bidi).peerOpened
  {
    hide InOrder, Linked, Kind, Alive, Booked, Announcements.Inv, Announcements.Run, Announcements.Stuck;
    var accounts, es := AccountsRun(ts, ls, evs, side);
    Announcements.StuckForever(accounts, es, j, k);
  }

  /** When no MAX_STREAMS frame is lost before the peer heard it, the peer is stuck exactly when
      as many of its streams are dead as it was allowed to begin with. */
  lemma StuckWithoutLossIff(ts: seq<Table>, ls: seq<Announcements.Link>, evs: seq<Announcements.LinkEvent<Event>>, side: Side,
                            k: nat)
    requires LinkedRun(ts, ls, evs, side) && k < |ts| && ts[0].Of(side.bidi).localMax == ls[0].known
    requires forall j :: 0 <= j < k && evs[j].Lost? ==> evs[j].max <= ls[j].known
    requires ts[k].Of(side.bidi).peerOpened < U64_MAX
    ensures Announcements.Stuck(Account(ts[k], ls[k], side)) <==> Account(ts[k], ls[k], side).Forfeited() == side.Initially()
  {
    hide InOrder, Linked, Kind, Alive, Booked, Announcements.Inv, Announcements.Run, Announcements.Stuck, Announcements.Reliable;
    var accounts, es := AccountsRun(ts, ls, evs, side);
    forall j | 0 <= j < k
      ensures Announcements.Reliable(accounts[j], es[j])
    {
      ReliableStep(ts[j], ls[j], evs[j], ts[j + 1], ls[j + 1], side);
    }
    Announcements.StuckWithoutLossIff(accounts, es, k);
  }

  lemma ReliableStep(t: Table, l: Announcements.Link, ev: Announcements.LinkEvent<Event>,
                     t': Table, l': Announcements.Link, side: Side)
    requires Linked(t, l, ev, t', l', side.bidi, side.isServer) && (ev.Lost? ==> ev.max <= l.known)
    ensures Announcements.Reliable(Account(t, l, side), Booked(t, ev, t', side.bidi))
  {
  }

  // ---------- when the peer can be served ----------

  /** The peer's streams of one kind that will never be collected. */
  function DeadOnes(t: Table, bidi: bool, isServer: bool): set<nat> {
    set id | id in t.streams && IsBidi(id) == bidi && !IsLocal(id, isServer) && Dead(t.streams[id])
  }

  lemma PeersSplit(t: Table, bidi: bool, isServer: bool)
    ensures |Kind(t.streams.Keys, bidi, false, isServer)| == |DeadOnes(t, bidi, isServer)| + |Alive(t, bidi, isServer)|
  {
    hide Dead;
    var dead, alive := DeadOnes(t, bidi, isServer), Alive(t, bidi, isServer);
    assert Kind(t.streams.Keys, bidi, false, isServer) == dead + alive && dead !! alive;
  }

  /** The streams forfeited are the dead ones. */
  lemma ForfeitedAreDead(t: Table, l: Announcements.Link, side: Side)
    requires InOrder(t, l, side)
    ensures Account(t, l, side).Forfeited() == |DeadOnes(t, side.bidi, side.isServer)|
  {
    hide Kind, Alive, DeadOnes, Typed;
    PeersSplit(t, side.bidi, side.isServer);
  }

  ghost predicate Serves(ts: seq<Table>, ls: seq<Announcements.Link>, evs: seq<Announcements.LinkEvent<Event>>,
                         t: Table, l: Announcements.Link, side: Side) {
    && LinkedRun(ts, ls, evs, side) && ts[0] == t && ls[0] == l
    && ts[|evs|].Of(side.bidi).peerOpened < ls[|evs|].known
  }

  /** Some continuation lets the peer open a stream. */
  ghost predicate CanBeServed(t: Table, l: Announcements.Link, side: Side) {
    exists ts, ls, evs :: Serves(ts, ls, evs, t, l, side)
  }

  lemma ServedNow(t: Table, l: Announcements.Link, side: Side)
    requires InOrder(t, l, side) && t.Of(side.bidi).peerOpened < l.known
    ensures CanBeServed(t, l, side)
  {
    hide InOrder;
    assert Serves([t], [l], [], t, l, side);
  }

  lemma ServedAfter(t: Table, l: Announcements.Link, ev: Announcements.LinkEvent<Event>, u: Table, m: Announcements.Link, side: Side)
    requires InOrder(t, l, side) && Linked(t, l, ev, u, m, side.bidi, side.isServer) && CanBeServed(u, m, side)
    ensures CanBeServed(t, l, side)
  {
    hide InOrder, Linked;
    var ts, ls, evs :| Serves(ts, ls, evs, u, m, side);
    assert Serves([t] + ts, [l] + ls, [ev] + evs, t, l, side);
  }

  lemma ServedByNews(t: Table, l: Announcements.Link, v: nat, side: Side)
    requires InOrder(t, l, side) && v in l.flight && v > l.known
    ensures CanBeServed(t, l, side)
  {
    var m := l.(known := v);
    assert Linked(t, l, Announcements.Heard(v), t, m, side.bidi, side.isServer);
    assert t.Of(side.bidi).peerOpened < v;
    hide InOrder, Linked;
    StepWith(t, l, Announcements.Heard(v), t, m, side);
    ServedNow(t, m, side);
    ServedAfter(t, l, Announcements.Heard(v), t, m, side);
  }

  lemma Numbers(t: Table, l: Announcements.Link, side: Side)
    requires InOrder(t, l, side)
    ensures var q := t.Of(side.bidi); q.peerOpened <= l.known <= q.localMax <= q.localMaxNext <= U64_MAX
  {
  }

  lemma ServedByCommit(t: Table, l: Announcements.Link, side: Side)
    requires InOrder(t, l, side) && t.Of(side.bidi).peerOpened <= t.Of(side.bidi).localMax
    requires UpdateDue(t.Of(side.bidi).peerOpened, t.Of(side.bidi).localMax, t.Of(side.bidi).localMaxNext)
    ensures CanBeServed(t, l, side)
  {
    Numbers(t, l, side);
    var next := t.Of(side.bidi).localMaxNext;
    var e, u, m := Announcements.Local(CommitLimit(side.bidi), true), Commit(t, side.bidi), Announcements.Told(l, next, true);
    assert Linked(t, l, e, u, m, side.bidi, side.isServer);
    hide InOrder, Linked, Commit;
    StepWith(t, l, e, u, m, side);
    ServedByNews(u, m, next, side);
    ServedAfter(t, l, e, u, m, side);
  }

  /** A stream that is not dead can end where it stands. */
  function Finished(s: Stream): Stream {
    var end := if s.recv.finOff.Some? then s.recv.finOff.value else s.recv.len;
    s.(recv := s.recv.(data := [], off := end, len := end, finOff := Some(end)),
       send := s.send.(finOff := Some(0), acked := [Range(0, 0)]))
  }

  lemma FinishedIsCollectable(s: Stream)
    requires !Dead(s) && Sound(s.recv) && !s.local
    ensures Evolves(s, Finished(s)) && Collectable(Finished(s))
  {
  }

  /** The table with stream `id` at its end, and then collected. */
  function Ended(t: Table, id: nat): Table
    requires id in t.streams
  {
    t.(streams := t.streams[id := Finished(t.streams[id])])
  }

  lemma EndStep(t: Table, l: Announcements.Link, side: Side, id: nat)
    requires InOrder(t, l, side) && id in Alive(t, side.bidi, side.isServer)
    ensures id in t.streams && !t.streams[id].local
    ensures Linked(t, l, Announcements.Local(Change(id, Finished(t.streams[id])), false), Ended(t, id), l,
                   side.bidi, side.isServer)
    ensures Collectable(Finished(t.streams[id]))
  {
    FinishedIsCollectable(t.streams[id]);
    Numbers(t, l, side);
    hide Finished, Alive, Kind, QuotaInv, Evolves, Dead;
  }

  lemma DropStep(t: Table, l: Announcements.Link, side: Side, id: nat)
    requires InOrder(t, l, side) && id in t.streams && !t.streams[id].local && Collectable(t.streams[id])
    requires IsBidi(id) == side.bidi
    ensures Linked(t, l, Announcements.Local(Complete(id), false), Collect(t, id, false), l, side.bidi, side.isServer)
    ensures |Alive(Collect(t, id, false), side.bidi, side.isServer)| + 1 == |Alive(t, side.bidi, side.isServer)|
    ensures Collect(t, id, false).Of(side.bidi) ==
            t.Of(side.bidi).(localMaxNext := SaturatingAdd(t.Of(side.bidi).localMaxNext, 1))
  {
    Numbers(t, l, side);
    CollectBooked(t, id, side.bidi, side.isServer, side.maxBidi, side.maxUni);
    hide InOrder, Alive, Kind, Collectable;
  }

  lemma FinishSteps(t: Table, l: Announcements.Link, side: Side, id: nat)
    requires InOrder(t, l, side) && id in Alive(t, side.bidi, side.isServer)
    ensures id in t.streams
    ensures var u := Ended(t, id);
            && Linked(t, l, Announcements.Local(Change(id, Finished(t.streams[id])), false), u, l, side.bidi, side.isServer)
            && Linked(u, l, Announcements.Local(Complete(id), false), Collect(u, id, false), l, side.bidi, side.isServer)
            && InOrder(u, l, side) && InOrder(Collect(u, id, false), l, side)
            && |Alive(Collect(u, id, false), side.bidi, side.isServer)| + 1 == |Alive(t, side.bidi, side.isServer)|
            && Collect(u, id, false).Of(side.bidi) ==
                 t.Of(side.bidi).(localMaxNext := SaturatingAdd(t.Of(side.bidi).localMaxNext, 1))
  {
    EndStep(t, l, side, id);
    FinishedIsCollectable(t.streams[id]);
    var u := Ended(t, id);
    assert u.streams[id].local == t.streams[id].local && IsBidi(id) == side.bidi;
    assert Alive(u, side.bidi, side.isServer) == Alive(t, side.bidi, side.isServer) by {
      NotDead(u.streams[id]);
      hide Finished, Dead, Collectable;
    }
    hide InOrder, Linked, Finished, Alive, Evolves, Collectable;
    StepWith(t, l, Announcements.Local(Change(id, Finished(t.streams[id])), false), u, l, side);
    DropStep(u, l, side, id);
    StepWith(u, l, Announcements.Local(Complete(id), false), Collect(u, id, false), l, side);
  }

  lemma {:induction false} NotStuckIsServed(t: Table, l: Announcements.Link, side: Side)
    requires InOrder(t, l, side) && !Announcements.Stuck(Account(t, l, side))
    ensures CanBeServed(t, l, side)
    decreases |Alive(t, side.bidi, side.isServer)|
  {
    hide InOrder, Linked, Alive, Kind, Collect, CanBeServed;
    Numbers(t, l, side);
    if t.Of(side.bidi).peerOpened < l.known {
      ServedNow(t, l, side);
    } else if v :| v in l.flight && v > l.known {
      ServedByNews(t, l, v, side);
    } else if id :| id in Alive(t, side.bidi, side.isServer) {
      FinishSteps(t, l, side, id);
      var u := Ended(t, id);
      NotStuckIsServed(Collect(u, id, false), l, side);
      ServedAfter(u, l, Announcements.Local(Complete(id), false), Collect(u, id, false), l, side);
      ServedAfter(t, l, Announcements.Local(Change(id, Finished(t.streams[id])), false), u, l, side);
    } else {
      assert Alive(t, side.bidi, side.isServer) == {};
      ServedByCommit(t, l, side);
    }
  }

  /** Exactly when a peer can open a stream: it knows that it may, or an announcement under way
      tells it so, or an update is due once every stream that can be collected is. Otherwise it
      never opens a stream of this kind again. */
  lemma OpeningServedIff(t: Table, l: Announcements.Link, side: Side)
    requires InOrder(t, l, side)
    ensures t.Of(side.bidi).peerOpened <= t.Of(side.bidi).localMax
    ensures var q := t.Of(side.bidi);
            CanBeServed(t, l, side) <==>
              || q.peerOpened < l.known
              || (exists v :: v in l.flight && v > l.known)
              || UpdateDue(q.peerOpened, q.localMax, SaturatingAdd(q.localMaxNext, |Alive(t, side.bidi, side.isServer)|))
  {
    hide InOrder, Alive, Kind, CanBeServed;
    Numbers(t, l, side);
    if Announcements.Stuck(Account(t, l, side)) {
      StuckNotServed(t, l, side);
    } else {
      NotStuckIsServed(t, l, side);
    }
  }

  lemma StuckNotServed(t: Table, l: Announcements.Link, side: Side)
    requires InOrder(t, l, side) && Announcements.Stuck(Account(t, l, side))
    ensures !CanBeServed(t, l, side)
  {
    hide InOrder, Linked, Kind, Alive;
    forall ts, ls, evs
      ensures !Serves(ts, ls, evs, t, l, side)
    {
      if Serves(ts, ls, evs, t, l, side) {
        StuckOpensNoMore(ts, ls, evs, side, 0, |evs|);
      }
    }
  }

  // ---------- runs in which the peer is stuck ----------

  lemma Follows(t: Table, e: Event, t': Table, l: Announcements.Link, side: Side)
    requires InOrder(t, l, side) && Does(t, e, side.isServer, t') && t'.Of(side.bidi).peerOpened <= l.known
    requires e != CommitLimit(side.bidi)
    ensures Linked(t, l, Announcements.Local(e, true), t', l, side.bidi, side.isServer) && InOrder(t', l, side)
  {
    hide InOrder, Does;
    StepWith(t, l, Announcements.Local(e, true), t', l, side);
  }

  /** The peer opens stream `id`, the only one it may. */
  lemma OnlyStream(id: nat, ours: Windows, theirs: Windows, side: Side)
    requires side.isServer && (if side.bidi then id == 0 && side.maxBidi == 1 else id == 2 && side.maxUni == 1)
    requires side.maxBidi <= U64_MAX && side.maxUni <= U64_MAX
    ensures var start, l := Start(side.maxBidi, side.maxUni), Announcements.Link(1, {});
            var r := GetOrCreate(start, id, false, true, ours, theirs);
            && r.Ok? && id in r.value.streams && r.value.Of(side.bidi).peerOpened == 1
            && InOrder(start, l, side) && InOrder(r.value, l, side)
            && Linked(start, l, Announcements.Local(Open(id, false, ours, theirs), true), r.value, l, side.bidi, true)
            && r.value.streams[id] == NewStream(id, false, ours, theirs)
  {
    var start, l := Start(side.maxBidi, side.maxUni), Announcements.Link(1, {});
    StartInOrder(side);
    assert GetOrCreate(start, id, false, true, ours, theirs).Ok?;
    hide InOrder, NewStream;
    Follows(start, Open(id, false, ours, theirs), GetOrCreate(start, id, false, true, ours, theirs).value, l, side);
  }

  /** The only stream, drained. */
  function Drained(s: Stream): Stream {
    s.(recv := s.recv.(drain := true, data := []))
  }

  lemma DrainStep(t: Table, l: Announcements.Link, id: nat, side: Side)
    requires InOrder(t, l, side) && id in t.streams && t.Of(side.bidi).peerOpened <= l.known
    ensures var u := t.(streams := t.streams[id := Drained(t.streams[id])]);
            && Linked(t, l, Announcements.Local(Change(id, Drained(t.streams[id])), true), u, l, side.bidi, side.isServer)
            && InOrder(u, l, side)
  {
    var u := t.(streams := t.streams[id := Drained(t.streams[id])]);
    assert Evolves(t.streams[id], Drained(t.streams[id]));
    Follows(t, Change(id, Drained(t.streams[id])), u, l, side);
  }

  /** A run without loss in which the peer is stuck: it opens the one unidirectional stream it
      may, which is not read to its end, so that it is never collected. */
  lemma UnreadStreamBlocks(ours: Windows, theirs: Windows)
    returns (ts: seq<Table>, ls: seq<Announcements.Link>, evs: seq<Announcements.LinkEvent<Event>>)
    ensures LinkedRun(ts, ls, evs, Side(false, true, 0, 1)) && |ts| == 3 && ts[0] == Start(0, 1)
    ensures evs[0] == Announcements.Local(Open(2, false, ours, theirs), true) && evs[1].Local? && evs[1].e.Change?
    ensures Announcements.Stuck(Account(ts[2], ls[2], Side(false, true, 0, 1)))
  {
    var side, l := Side(false, true, 0, 1), Announcements.Link(1, {});
    OnlyStream(2, ours, theirs, side);
    var one := GetOrCreate(Start(0, 1), 2, false, true, ours, theirs).value;
    DrainStep(one, l, 2, side);
    var s := Drained(one.streams[2]);
    var two := one.(streams := one.streams[2 := s]);
    NoneAlive(two, 2);
    StuckWhenDead(two, l, side);
    TwoSteps(Start(0, 1), one, two, l, Open(2, false, ours, theirs), Change(2, s), side);
    ts, ls := [Start(0, 1), one, two], [l, l, l];
    evs := [Announcements.Local(Open(2, false, ours, theirs), true), Announcements.Local(Change(2, s), true)];
    hide *;
  }

  lemma NoneAlive(t: Table, id: nat)
    requires t.streams.Keys == {id} && !t.streams[id].bidi && t.streams[id].recv.drain
    ensures |Alive(t, false, true)| == 0
  {
    assert Alive(t, false, true) == {};
  }

  lemma StuckWhenDead(t: Table, l: Announcements.Link, side: Side)
    requires InOrder(t, l, side) && t.Of(side.bidi).peerOpened == l.known == t.Of(side.bidi).localMaxNext && l.flight == {}
    requires |Alive(t, side.bidi, side.isServer)| == 0
    ensures Announcements.Stuck(Account(t, l, side))
  {
    hide Alive, Kind;
  }

  lemma TwoSteps(a: Table, b: Table, c: Table, l: Announcements.Link, e1: Event, e2: Event, side: Side)
    requires InOrder(a, l, side)
    requires Linked(a, l, Announcements.Local(e1, true), b, l, side.bidi, side.isServer)
    requires Linked(b, l, Announcements.Local(e2, true), c, l, side.bidi, side.isServer)
    ensures LinkedRun([a, b, c], [l, l, l], [Announcements.Local(e1, true), Announcements.Local(e2, true)], side)
  {
    hide InOrder, Linked;
  }

  /** Four steps and a loss. */
  lemma FiveSteps(a: Table, b: Table, c: Table, d: Table, f: Table, l: Announcements.Link, told: Announcements.Link,
                  e1: Event, e2: Event, e3: Event, e4: Event, v: nat, side: Side)
    requires InOrder(a, l, side)
    requires Linked(a, l, Announcements.Local(e1, true), b, l, side.bidi, side.isServer)
    requires Linked(b, l, Announcements.Local(e2, false), c, l, side.bidi, side.isServer)
    requires Linked(c, l, Announcements.Local(e3, false), d, l, side.bidi, side.isServer)
    requires Linked(d, l, Announcements.Local(e4, true), f, told, side.bidi, side.isServer)
    requires Linked(f, told, Announcements.Lost(v), f, l, side.bidi, side.isServer)
    ensures LinkedRun([a, b, c, d, f, f], [l, l, l, l, told, l],
                      [Announcements.Local(e1, true), Announcements.Local(e2, false), Announcements.Local(e3, false),
                       Announcements.Local(e4, true), Announcements.Lost(v)], side)
  {
    hide InOrder, Linked;
  }

  /** The one stream ends and is collected, and the new limit is announced. */
  lemma GrantSecond(t: Table, l: Announcements.Link, side: Side)
    requires InOrder(t, l, side) && l == Announcements.Link(1, {}) && t.Of(side.bidi).peerOpened == 1
    requires t.Of(side.bidi).localMax == 1 && t.Of(side.bidi).localMaxNext == 2
    requires |Alive(t, side.bidi, side.isServer)| == 0
    ensures var told := Announcements.Link(1, {2});
            && Linked(t, l, Announcements.Local(CommitLimit(side.bidi), true), Commit(t, side.bidi), told, side.bidi, side.isServer)
            && Linked(Commit(t, side.bidi), told, Announcements.Lost(2), Commit(t, side.bidi), l, side.bidi, side.isServer)
            && Announcements.Stuck(Account(Commit(t, side.bidi), l, side))
  {
    var told := Announcements.Link(1, {2});
    assert Announcements.Told(l, 2, true) == told && told.flight - {2} == {};
    CommitBooked(t, side.bidi, side.bidi, side.isServer);
    hide InOrder, Alive, Kind;
  }

  /** A run in which the peer is stuck: it opens the one stream it may, that stream is
      collected, and the MAX_STREAMS frame that allows a second one is lost. */
  lemma LostLimitBlocks(ours: Windows, theirs: Windows)
    returns (ts: seq<Table>, ls: seq<Announcements.Link>, evs: seq<Announcements.LinkEvent<Event>>)
    ensures LinkedRun(ts, ls, evs, Side(true, true, 1, 0)) && |evs| == 5 && ts[0] == Start(1, 0)
    ensures evs[3] == Announcements.Local(CommitLimit(true), true) && evs[4] == Announcements.Lost(2)
    ensures Announcements.Stuck(Account(ts[5], ls[5], Side(true, true, 1, 0)))
  {
    var side, l, told := Side(true, true, 1, 0), Announcements.Link(1, {}), Announcements.Link(1, {2});
    var open := Open(0, false, ours, theirs);
    OnlyStream(0, ours, theirs, side);
    var one := GetOrCreate(Start(1, 0), 0, false, true, ours, theirs).value;
    OnlyAlive(ours, theirs);
    FinishSteps(one, l, side, 0);
    var finish := Change(0, Finished(one.streams[0]));
    var two, three := Ended(one, 0), Collect(Ended(one, 0), 0, false);
    GrantSecond(three, l, side);
    var four := Commit(three, true);
    FiveSteps(Start(1, 0), one, two, three, four, l, told, open, finish, Complete(0), CommitLimit(true), 2, side);
    ts, ls := [Start(1, 0), one, two, three, four, four], [l, l, l, l, told, l];
    evs := [Announcements.Local(open, true), Announcements.Local(finish, false), Announcements.Local(Complete(0), false),
            Announcements.Local(CommitLimit(true), true), Announcements.Lost(2)];
    hide *;
  }

  lemma OnlyAlive(ours: Windows, theirs: Windows)
    ensures var r := GetOrCreate(Start(1, 0), 0, false, true, ours, theirs);
            && r.Ok? && Alive(r.value, true, true) == {0}
            && r.value.bidi == Quota(0, 1, 1, 1, 0)
  {
  }
}
