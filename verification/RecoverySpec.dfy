/** What loss recovery does, on values (src/recovery.rs, src/fec.rs): sent packets that are
    acknowledged, declared lost, or credited because their FEC group can be decoded. */
module RecoverySpec {
  import opened Prelude
  import opened FrameTypes

  const EPOCHS: nat := 3
  const APPLICATION: nat := 2
  const PACKET_THRESHOLD: nat := 3

  datatype Sent = Sent(pktNum: nat, frames: seq<Tagged>, time: int, size: nat, ackEliciting: bool,
                       inFlight: bool, fec: FecStatus)

  /** A packet of an FEC group: its index there, and its packet number. */
  datatype Slot = Slot(index: nat, pn: nat)

  /** The packets of one FEC group in index order, and which packet numbers were
      acknowledged or lost. */
  datatype Group = Group(m: nat, n: nat, sent: seq<Slot>, acked: set<nat>, lost: set<nat>)

  /** One packet number space. `sent` is the map of outstanding packets in key order;
      `acked` and `lost` are the frames the connection has not processed yet. */
  datatype Space = Space(sent: seq<Sent>, acked: seq<Tagged>, lost: seq<Tagged>,
                         largestSent: nat, largestAcked: nat, lossTime: Option<int>, probes: nat,
                         lastEliciting: Option<int>)

  datatype Rec = Rec(spaces: seq<Space>, groups: map<nat, Group>, bytesInFlight: nat, lostCount: nat)

  function EmptySpace(): Space {
    Space([], [], [], 0, U64_MAX, None, 0, None)
  }

  function Start(): Rec {
    Rec([EmptySpace(), EmptySpace(), EmptySpace()], map[], 0, 0)
  }

  function WithSpace(r: Rec, e: nat, s: Space): Rec
    requires e < |r.spaces|
  {
    r.(spaces := r.spaces[e := s])
  }

  // ---------- outstanding packets ----------

  ghost predicate Ordered(sent: seq<Sent>) {
    forall i, j :: 0 <= i < j < |sent| ==> sent[i].pktNum < sent[j].pktNum
  }

  function Find(sent: seq<Sent>, pn: nat): (r: Option<nat>)
    ensures r.Some? ==> r.value < |sent| && sent[r.value].pktNum == pn
    ensures r.None? ==> forall p :: p in sent ==> p.pktNum != pn
  {
    if sent == [] then None
    else if sent[0].pktNum == pn then Some(0)
    else match Find(sent[1..], pn)
      case None => None
      case Some(i) => Some(i + 1)
  }

  function Remove(sent: seq<Sent>, i: nat): seq<Sent>
    requires i < |sent|
  {
    sent[..i] + sent[i + 1..]
  }

  /** All frames of the outstanding packets. */
  function FramesOf(sent: seq<Sent>): multiset<Tagged> {
    if sent == [] then multiset{} else multiset(sent[0].frames) + FramesOf(sent[1..])
  }

  function FlightSize(p: Sent): nat {
    if p.inFlight then p.size else 0
  }

  /** Total size of the outstanding packets that count as in flight. */
  function InFlight(sent: seq<Sent>): nat {
    if sent == [] then 0 else FlightSize(sent[0]) + InFlight(sent[1..])
  }

  lemma {:induction false} Concat(a: seq<Sent>, b: seq<Sent>)
    ensures FramesOf(a + b) == FramesOf(a) + FramesOf(b)
    ensures InFlight(a + b) == InFlight(a) + InFlight(b)
  {
    if a == [] {
      assert a + b == b;
    } else {
      assert (a + b)[1..] == a[1..] + b;
      Concat(a[1..], b);
    }
  }

  lemma Single(p: Sent)
    ensures FramesOf([p]) == multiset(p.frames) && InFlight([p]) == FlightSize(p)
  {
    assert [p][1..] == [];
  }

  lemma RemoveParts(sent: seq<Sent>, i: nat)
    requires i < |sent|
    ensures FramesOf(sent) == FramesOf(Remove(sent, i)) + multiset(sent[i].frames)
    ensures InFlight(sent) == InFlight(Remove(sent, i)) + FlightSize(sent[i])
  {
    hide FramesOf, InFlight;
    assert sent == sent[..i] + ([sent[i]] + sent[i + 1..]);
    Concat(sent[..i], [sent[i]] + sent[i + 1..]);
    Concat([sent[i]], sent[i + 1..]);
    Concat(sent[..i], sent[i + 1..]);
    Single(sent[i]);
  }

  lemma RemoveOrdered(sent: seq<Sent>, i: nat)
    requires i < |sent|
    ensures Ordered(sent) ==> Ordered(Remove(sent, i))
    ensures forall p :: p in Remove(sent, i) ==> p in sent
    ensures Ordered(sent) ==> forall p :: p in Remove(sent, i) ==> p.pktNum != sent[i].pktNum
    ensures forall p :: p in sent ==> p == sent[i] || p in Remove(sent, i)
  {
    assert sent == sent[..i] + [sent[i]] + sent[i + 1..];
  }

  // ---------- sending ----------

  function NewGroup(m: nat, n: nat): Group {
    Group(m, n, [], {}, {})
  }

  /** `BTreeMap::insert`: a second packet with the same index replaces the first. */
  function Put(slots: seq<Slot>, s: Slot): seq<Slot> {
    if slots == [] || s.index < slots[0].index then [s] + slots
    else if s.index == slots[0].index then [s] + slots[1..]
    else [slots[0]] + Put(slots[1..], s)
  }

  function Joined(groups: map<nat, Group>, p: Sent): map<nat, Group> {
    if p.fec.groupId == 0 then groups
    else
      var g := if p.fec.groupId in groups then groups[p.fec.groupId] else NewGroup(p.fec.m, p.fec.n);
      groups[p.fec.groupId := g.(sent := Put(g.sent, Slot(p.fec.index, p.pktNum)))]
  }

  /** `BTreeMap::insert` of a packet at its number; one with the same number is replaced. */
  function Place(sent: seq<Sent>, p: Sent): seq<Sent> {
    if sent == [] || p.pktNum < sent[0].pktNum then [p] + sent
    else if p.pktNum == sent[0].pktNum then [p] + sent[1..]
    else [sent[0]] + Place(sent[1..], p)
  }

  /** `on_packet_sent`. */
  function PacketSent(r: Rec, p: Sent, e: nat, now: int): Rec
    requires e < |r.spaces|
  {
    var s := r.spaces[e];
    var t := s.(sent := Place(s.sent, p), largestSent := Max(s.largestSent, p.pktNum),
                lastEliciting := if p.inFlight && p.ackEliciting then Some(now) else s.lastEliciting);
    WithSpace(r, e, t).(groups := Joined(r.groups, p),
                        bytesInFlight := if e >= 2 then r.bytesInFlight + FlightSize(p) else r.bytesInFlight)
  }

  // ---------- acknowledging one packet ----------

  /** `get_recovered_pns`: the packets of the group, in index order, that were not
      acknowledged. */
  function Missing(slots: seq<Slot>, acked: set<nat>): seq<nat> {
    if slots == [] then []
    else (if slots[0].pn in acked then [] else [slots[0].pn]) + Missing(slots[1..], acked)
  }

  function RecoveredPns(g: Group): Option<seq<nat>> {
    if |g.acked| >= g.m then Some(Missing(g.sent, g.acked)) else None
  }

  /** `on_packet_recovered` for each number: the frames are credited, the packet stays. */
  function Credit(s: Space, pns: seq<nat>): Space
    decreases |pns|
  {
    if pns == [] then s
    else match Find(s.sent, pns[0])
      case None => Credit(s, pns[1..])
      case Some(i) =>
        Credit(s.(sent := s.sent[i := s.sent[i].(frames := [])], acked := s.acked + s.sent[i].frames), pns[1..])
  }

  /** The group after packet `pn` of it was acknowledged. */
  function GroupAcked(g: Group, pn: nat): Group {
    g.(acked := g.acked + {pn})
  }

  /** `on_packet_acked`, and whether the packet was outstanding. */
  function PacketAcked(r: Rec, pn: nat, e: nat): (Rec, bool)
    requires Valid(r) && e < EPOCHS
  {
    match Find(r.spaces[e].sent, pn)
    case None => (r, false)
    case Some(i) =>
      var s := r.spaces[e];
      var p := s.sent[i];
      var r1 := WithSpace(r, e, s.(sent := Remove(s.sent, i), acked := s.acked + p.frames));
      var r2 := if p.fec.groupId == 0 then r1 else FecAcked(r1, p.fec.groupId, pn);
      InFlightBound(s.sent, i);
      (if p.inFlight && e >= 2 then r2.(bytesInFlight := r2.bytesInFlight - p.size) else r2, true)
  }

  /** The FEC part of an acknowledgement: once enough packets of the group were
      acknowledged, the frames of the others are credited too. */
  function FecAcked(r: Rec, group: nat, pn: nat): Rec
    requires |r.spaces| == EPOCHS && group in r.groups
  {
    var g := GroupAcked(r.groups[group], pn);
    var r1 := r.(groups := r.groups[group := g]);
    match RecoveredPns(g)
    case None => r1
    case Some(pns) => WithSpace(r1, APPLICATION, Credit(r1.spaces[APPLICATION], pns))
  }

  lemma InFlightBound(sent: seq<Sent>, i: nat)
    requires i < |sent|
    ensures FlightSize(sent[i]) <= InFlight(sent)
  {
    RemoveParts(sent, i);
  }

  // ---------- the invariant ----------

  /** A FEC packet lives in the application space and its group is known. */
  ghost predicate Grouped(spaces: seq<Space>, groups: set<nat>) {
    forall e, p :: 0 <= e < |spaces| && p in spaces[e].sent && p.fec.groupId != 0 ==>
      e == APPLICATION && p.fec.groupId in groups
  }

  ghost predicate AllOrdered(spaces: seq<Space>) {
    forall e :: 0 <= e < |spaces| ==> Ordered(spaces[e].sent)
  }

  /** Bytes in flight are those of the outstanding application packets. */
  ghost predicate Valid(r: Rec) {
    && |r.spaces| == EPOCHS
    && AllOrdered(r.spaces)
    && r.bytesInFlight == InFlight(r.spaces[APPLICATION].sent)
    && Grouped(r.spaces, r.groups.Keys)
  }

  /** What `on_packet_sent` demands of its caller: a number that is not outstanding, and FEC
      packets in the application space only. */
  predicate Sendable(r: Rec, p: Sent, e: nat) {
    && e < |r.spaces|
    && Find(r.spaces[e].sent, p.pktNum).None?
    && (p.fec.groupId != 0 ==> e == APPLICATION)
  }

  lemma {:induction false} PlaceSums(sent: seq<Sent>, p: Sent)
    requires forall q :: q in sent ==> q.pktNum != p.pktNum
    ensures FramesOf(Place(sent, p)) == FramesOf(sent) + multiset(p.frames)
    ensures InFlight(Place(sent, p)) == InFlight(sent) + FlightSize(p)
  {
    if sent == [] || p.pktNum < sent[0].pktNum {
      assert Place(sent, p)[1..] == sent;
    } else {
      assert sent[0] in sent;
      PlaceSums(sent[1..], p);
      assert Place(sent, p)[1..] == Place(sent[1..], p);
    }
  }

  lemma {:induction false} PlaceOrdered(sent: seq<Sent>, p: Sent)
    requires Ordered(sent) && forall q :: q in sent ==> q.pktNum != p.pktNum
    ensures Ordered(Place(sent, p))
    ensures forall q :: q in Place(sent, p) <==> q == p || q in sent
  {
    if sent != [] && sent[0].pktNum < p.pktNum {
      PlaceOrdered(sent[1..], p);
      AheadOf(sent, p, Place(sent[1..], p));
    } else {
      assert sent != [] ==> sent[0] in sent;
    }
  }

  lemma AheadOf(sent: seq<Sent>, p: Sent, rest: seq<Sent>)
    requires Ordered(sent) && sent != [] && sent[0].pktNum < p.pktNum && Ordered(rest)
    requires forall q :: q in rest ==> q == p || q in sent[1..]
    ensures Ordered([sent[0]] + rest)
  {
    forall q | q in rest
      ensures sent[0].pktNum < q.pktNum
    {
      if q != p {
        var k :| 0 <= k < |sent[1..]| && sent[1..][k] == q;
        assert sent[k + 1] == q;
      }
    }
    var all := [sent[0]] + rest;
    forall i, j | 0 <= i < j < |all|
      ensures all[i].pktNum < all[j].pktNum
    {
      assert all[j] == rest[j - 1] && rest[j - 1] in rest;
      assert i > 0 ==> all[i] == rest[i - 1];
    }
  }

  lemma SentValid(r: Rec, p: Sent, e: nat, now: int)
    requires Valid(r) && Sendable(r, p, e)
    ensures Valid(PacketSent(r, p, e, now))
    ensures FramesOf(PacketSent(r, p, e, now).spaces[e].sent) == FramesOf(r.spaces[e].sent) + multiset(p.frames)
  {
    hide Place, Ordered;
    PlaceOrdered(r.spaces[e].sent, p);
    PlaceSums(r.spaces[e].sent, p);
    var q := PacketSent(r, p, e, now);
    forall f, x | 0 <= f < |q.spaces| && x in q.spaces[f].sent && x.fec.groupId != 0
      ensures f == APPLICATION && x.fec.groupId in q.groups
    {
      assert x in r.spaces[f].sent || (f == e && x == p);
    }
  }

  // ---------- what an acknowledgement keeps ----------

  /** The same packets, possibly with other frames. */
  ghost predicate SamePackets(a: seq<Sent>, b: seq<Sent>) {
    |a| == |b| && forall i :: 0 <= i < |a| ==> b[i] == a[i].(frames := b[i].frames)
  }

  /** Frames move from outstanding packets to the acknowledged ones, and nowhere else. */
  ghost predicate FramesKept(a: Space, b: Space) {
    && FramesOf(b.sent) + multiset(b.acked) == FramesOf(a.sent) + multiset(a.acked)
    && a.lost == b.lost && a.acked <= b.acked
  }

  lemma {:induction false} CreditKeeps(s: Space, pns: seq<nat>)
    ensures var t := Credit(s, pns);
            && SamePackets(s.sent, t.sent) && FramesKept(s, t) && InFlight(t.sent) == InFlight(s.sent)
            && t == s.(sent := t.sent, acked := t.acked)
    decreases |pns|
  {
    hide FramesOf, InFlight;
    if pns != [] {
      match Find(s.sent, pns[0])
      case None => CreditKeeps(s, pns[1..]);
      case Some(i) =>
        var bare := s.sent[i].(frames := []);
        var u := s.(sent := s.sent[i := bare], acked := s.acked + s.sent[i].frames);
        RemoveParts(s.sent, i);
        RemoveParts(u.sent, i);
        assert Remove(u.sent, i) == Remove(s.sent, i);
        CreditKeeps(u, pns[1..]);
    }
  }

  lemma SamePacketsOrdered(a: seq<Sent>, b: seq<Sent>)
    requires SamePackets(a, b) && Ordered(a)
    ensures Ordered(b)
    ensures forall q :: q in b ==> exists p :: p in a && p.pktNum == q.pktNum && p.fec == q.fec
  {
    forall q | q in b
      ensures exists p :: p in a && p.pktNum == q.pktNum && p.fec == q.fec
    {
      var i :| 0 <= i < |b| && b[i] == q;
      assert a[i] in a;
    }
  }

  /** Taking one packet out of its space and its frames into `acked`. */
  function TakenOut(s: Space, i: nat): Space
    requires i < |s.sent|
  {
    s.(sent := Remove(s.sent, i), acked := s.acked + s.sent[i].frames)
  }

  lemma TakenOutKeeps(s: Space, i: nat)
    requires i < |s.sent| && Ordered(s.sent)
    ensures FramesKept(s, TakenOut(s, i)) && Ordered(TakenOut(s, i).sent)
    ensures InFlight(s.sent) == InFlight(TakenOut(s, i).sent) + FlightSize(s.sent[i])
    ensures forall p :: p in TakenOut(s, i).sent ==> p in s.sent
  {
    RemoveParts(s.sent, i);
    RemoveOrdered(s.sent, i);
  }

  lemma FecAckedKeeps(r: Rec, group: nat, pn: nat)
    requires |r.spaces| == EPOCHS && group in r.groups && Grouped(r.spaces, r.groups.Keys)
    requires AllOrdered(r.spaces)
    ensures var t := FecAcked(r, group, pn);
            && |t.spaces| == EPOCHS && Grouped(t.spaces, t.groups.Keys) && t.bytesInFlight == r.bytesInFlight
            && AllOrdered(t.spaces)
            && (forall e :: 0 <= e < EPOCHS ==>
                  && FramesKept(r.spaces[e], t.spaces[e])
                  && SamePackets(r.spaces[e].sent, t.spaces[e].sent)
                  && (e != APPLICATION ==> t.spaces[e] == r.spaces[e]))
            && InFlight(t.spaces[APPLICATION].sent) == InFlight(r.spaces[APPLICATION].sent)
            && t.groups.Keys == r.groups.Keys
  {
    var t := FecAcked(r, group, pn);
    var g := GroupAcked(r.groups[group], pn);
    if RecoveredPns(g).Some? {
      var s := r.spaces[APPLICATION];
      CreditKeeps(s, RecoveredPns(g).value);
      SamePacketsOrdered(s.sent, t.spaces[APPLICATION].sent);
    }
  }

  /** Space `e` without packet `i`: the other spaces, the groups and the order are kept. */
  lemma WithoutPacket(r: Rec, e: nat, i: nat)
    requires Valid(r) && e < EPOCHS && i < |r.spaces[e].sent|
    ensures var t := WithSpace(r, e, TakenOut(r.spaces[e], i));
            && Grouped(t.spaces, t.groups.Keys)
            && AllOrdered(t.spaces)
            && (forall f :: 0 <= f < EPOCHS ==> FramesKept(r.spaces[f], t.spaces[f]))
            && InFlight(r.spaces[APPLICATION].sent) == InFlight(t.spaces[APPLICATION].sent)
                 + (if e == APPLICATION then FlightSize(r.spaces[e].sent[i]) else 0)
  {
    TakenOutKeeps(r.spaces[e], i);
  }

  lemma KeptTwice(a: Space, b: Space, c: Space)
    requires FramesKept(a, b) && FramesKept(b, c)
    ensures FramesKept(a, c)
  {
  }

  /** The packet is out and, in a FEC group, the credit is given. */
  lemma TakenOutAndCredited(r: Rec, pn: nat, e: nat, i: nat)
    requires Valid(r) && e < EPOCHS && i < |r.spaces[e].sent|
    requires r.spaces[e].sent[i].fec.groupId != 0 ==> r.spaces[e].sent[i].fec.groupId in r.groups
    ensures var p, r1 := r.spaces[e].sent[i], WithSpace(r, e, TakenOut(r.spaces[e], i));
            var t := if p.fec.groupId == 0 then r1 else FecAcked(r1, p.fec.groupId, pn);
            && |t.spaces| == EPOCHS && Grouped(t.spaces, t.groups.Keys) && AllOrdered(t.spaces)
            && t.groups.Keys == r.groups.Keys && t.bytesInFlight == r.bytesInFlight
            && InFlight(r.spaces[APPLICATION].sent) == InFlight(t.spaces[APPLICATION].sent)
                 + (if e == APPLICATION then FlightSize(p) else 0)
            && forall f :: 0 <= f < EPOCHS ==> FramesKept(r.spaces[f], t.spaces[f])
  {
    var p, r1 := r.spaces[e].sent[i], WithSpace(r, e, TakenOut(r.spaces[e], i));
    WithoutPacket(r, e, i);
    if p.fec.groupId != 0 {
      FecAckedKeeps(r1, p.fec.groupId, pn);
      var t := FecAcked(r1, p.fec.groupId, pn);
      forall f | 0 <= f < EPOCHS
        ensures FramesKept(r.spaces[f], t.spaces[f])
      {
        KeptTwice(r.spaces[f], r1.spaces[f], t.spaces[f]);
      }
    }
  }

  /** An acknowledgement keeps the invariant, and every frame is still in exactly one
      place. */
  lemma AckedKeeps(r: Rec, pn: nat, e: nat)
    requires Valid(r) && e < EPOCHS
    ensures var t := PacketAcked(r, pn, e).0;
            && Valid(t) && t.groups.Keys == r.groups.Keys
            && forall f :: 0 <= f < EPOCHS ==> FramesKept(r.spaces[f], t.spaces[f])
  {
    match Find(r.spaces[e].sent, pn)
    case None =>
    case Some(i) =>
      assert r.spaces[e].sent[i] in r.spaces[e].sent;
      TakenOutAndCredited(r, pn, e, i);
  }

  // ---------- acknowledging ranges ----------

  /** Acknowledges every number of the list. */
  function AckAll(r: Rec, pns: seq<nat>, e: nat): (out: (Rec, bool))
    requires Valid(r) && e < EPOCHS
    ensures Valid(out.0)
    decreases |pns|
  {
    if pns == [] then (r, false)
    else
      var (t, newly) := PacketAcked(r, pns[0], e);
      AckedKeeps(r, pns[0], e);
      var (u, more) := AckAll(t, pns[1..], e);
      (u, newly || more)
  }

  /** The same with the early exit at the lowest outstanding packet. */
  function AckWalk(r: Rec, pns: seq<nat>, e: nat): (out: (Rec, bool))
    requires Valid(r) && e < EPOCHS
    ensures Valid(out.0)
    decreases |pns|
  {
    if pns == [] then (r, false)
    else if r.spaces[e].sent != [] && pns[0] < r.spaces[e].sent[0].pktNum then (r, false)
    else
      var (t, newly) := PacketAcked(r, pns[0], e);
      AckedKeeps(r, pns[0], e);
      var (u, more) := AckWalk(t, pns[1..], e);
      (u, newly || more)
  }

  ghost predicate Decreasing(pns: seq<nat>) {
    forall i, j :: 0 <= i < j < |pns| ==> pns[j] < pns[i]
  }

  lemma {:induction false} BelowLowest(r: Rec, pns: seq<nat>, e: nat)
    requires Valid(r) && e < EPOCHS && r.spaces[e].sent != []
    requires forall pn :: pn in pns ==> pn < r.spaces[e].sent[0].pktNum
    ensures AckAll(r, pns, e) == (r, false)
    decreases |pns|
  {
    if pns != [] {
      assert pns[0] in pns && forall pn :: pn in pns[1..] ==> pn in pns;
      BelowLowest(r, pns[1..], e);
    }
  }

  /** Walking the acknowledged numbers from the largest down and stopping early leaves the
      same state as acknowledging every one of them. */
  lemma {:induction false} EarlyExitLosesNothing(r: Rec, pns: seq<nat>, e: nat)
    requires Valid(r) && e < EPOCHS && Decreasing(pns)
    ensures AckWalk(r, pns, e) == AckAll(r, pns, e)
    decreases |pns|
  {
    if pns != [] {
      if r.spaces[e].sent != [] && pns[0] < r.spaces[e].sent[0].pktNum {
        BelowLowest(r, pns, e);
      } else {
        AckedKeeps(r, pns[0], e);
        EarlyExitLosesNothing(PacketAcked(r, pns[0], e).0, pns[1..], e);
      }
    }
  }

  lemma {:induction false} AckAllKeeps(r: Rec, pns: seq<nat>, e: nat)
    requires Valid(r) && e < EPOCHS
    ensures var t := AckAll(r, pns, e).0;
            && Valid(t) && forall f :: 0 <= f < EPOCHS ==> FramesKept(r.spaces[f], t.spaces[f])
    decreases |pns|
  {
    if pns != [] {
      AckedKeeps(r, pns[0], e);
      AckAllKeeps(PacketAcked(r, pns[0], e).0, pns[1..], e);
    }
  }

  /** Which packets of the space an acknowledgement leaves: those not listed. */
  lemma {:induction false} AckAllRemoves(r: Rec, pns: seq<nat>, e: nat, pn: nat)
    requires Valid(r) && e < EPOCHS
    ensures Find(AckAll(r, pns, e).0.spaces[e].sent, pn).Some? <==> Find(r.spaces[e].sent, pn).Some? && pn !in pns
    decreases |pns|
  {
    if pns != [] {
      AckedKeeps(r, pns[0], e);
      AckAllRemoves(PacketAcked(r, pns[0], e).0, pns[1..], e, pn);
      OneRemoved(r, pns[0], e, pn);
    }
  }

  lemma OneRemoved(r: Rec, acked: nat, e: nat, pn: nat)
    requires Valid(r) && e < EPOCHS
    ensures Find(PacketAcked(r, acked, e).0.spaces[e].sent, pn).Some? <==>
              Find(r.spaces[e].sent, pn).Some? && pn != acked
  {
    match Find(r.spaces[e].sent, acked)
    case None =>
    case Some(i) =>
      var s := r.spaces[e];
      var rest := TakenOut(s, i).sent;
      RemoveOrdered(s.sent, i);
      var r1 := WithSpace(r, e, TakenOut(s, i));
      TakenOutKeeps(s, i);
      assert Grouped(r1.spaces, r1.groups.Keys);
      var t := PacketAcked(r, acked, e).0.spaces[e].sent;
      assert SamePackets(rest, t) by {
        if s.sent[i].fec.groupId != 0 {
          assert s.sent[i] in s.sent;
          FecAckedKeeps(r1, s.sent[i].fec.groupId, acked);
        }
      }
      FindSame(rest, t, pn);
      FindMember(rest, pn);
      FindMember(s.sent, pn);
  }

  lemma FindMember(sent: seq<Sent>, pn: nat)
    ensures Find(sent, pn).Some? <==> exists p :: p in sent && p.pktNum == pn
  {
    if Find(sent, pn).Some? {
      assert sent[Find(sent, pn).value] in sent;
    }
  }

  lemma FindSame(a: seq<Sent>, b: seq<Sent>, pn: nat)
    requires SamePackets(a, b)
    ensures Find(a, pn).Some? <==> Find(b, pn).Some?
  {
    if Find(a, pn).Some? {
      assert b[Find(a, pn).value] in b;
    }
    if Find(b, pn).Some? {
      assert a[Find(b, pn).value] in a;
    }
  }

  // ---------- loss ----------

  /** Lost by time or by packet threshold. */
  predicate IsLost(p: Sent, largest: nat, limit: int) {
    p.pktNum <= largest && (p.time <= limit || largest >= p.pktNum + PACKET_THRESHOLD)
  }

  function Survivors(sent: seq<Sent>, largest: nat, limit: int): seq<Sent> {
    if sent == [] then []
    else (if IsLost(sent[0], largest, limit) then [] else [sent[0]]) + Survivors(sent[1..], largest, limit)
  }

  /** The numbers of the lost packets, as the first loop collects them. */
  function LostPns(sent: seq<Sent>, largest: nat, limit: int): seq<nat> {
    if sent == [] then []
    else (if IsLost(sent[0], largest, limit) then [sent[0].pktNum] else []) + LostPns(sent[1..], largest, limit)
  }

  /** The earliest time at which one of the packets kept is to be declared lost. */
  function LossTime(sent: seq<Sent>, largest: nat, limit: int, delay: int, acc: Option<int>): Option<int> {
    if sent == [] then acc
    else
      var p := sent[0];
      var next := if p.pktNum <= largest && !IsLost(p, largest, limit) then
                    (if acc.None? then Some(p.time + delay) else Some(Min(acc.value, p.time + delay)))
                  else acc;
      LossTime(sent[1..], largest, limit, delay, next)
  }

  /** The frames of a packet that nobody hears of again once it is lost: it was not in flight. */
  function Unheard(p: Sent): multiset<Tagged> {
    if p.inFlight then multiset{} else multiset(p.frames)
  }

  /** The frames of lost packets that were not in flight. */
  function Silent(sent: seq<Sent>, largest: nat, limit: int): multiset<Tagged> {
    if sent == [] then multiset{}
    else
      (if IsLost(sent[0], largest, limit) then Unheard(sent[0]) else multiset{})
      + Silent(sent[1..], largest, limit)
  }

  function SaturatingSub(a: nat, b: nat): nat {
    if a < b then 0 else a - b
  }

  function GroupLost(groups: map<nat, Group>, p: Sent): map<nat, Group>
    requires p.fec.groupId != 0 ==> p.fec.groupId in groups
  {
    if p.fec.groupId == 0 then groups
    else
      var g := groups[p.fec.groupId];
      groups[p.fec.groupId := g.(lost := g.lost + {p.pktNum})]
  }

  /** `on_packets_lost` for one packet. */
  function Lose(r: Rec, pn: nat, e: nat): Rec
    requires Valid(r) && e < EPOCHS
  {
    match Find(r.spaces[e].sent, pn)
    case None => r
    case Some(i) =>
      var s := r.spaces[e];
      var p := s.sent[i];
      assert p in s.sent;
      var s1 := s.(sent := Remove(s.sent, i));
      var r1 := r.(lostCount := r.lostCount + 1);
      if !p.inFlight then WithSpace(r1, e, s1)
      else
        WithSpace(r1, e, s1.(lost := s.lost + p.frames)).(
          bytesInFlight := if e >= 2 then SaturatingSub(r.bytesInFlight, p.size) else r.bytesInFlight,
          groups := GroupLost(r.groups, p))
  }

  lemma FindsItself(sent: seq<Sent>, i: nat)
    requires Ordered(sent) && i < |sent|
    ensures Find(sent, sent[i].pktNum) == Some(i)
  {
    assert sent[i] in sent;
    var j := Find(sent, sent[i].pktNum).value;
    assert j == i;
  }

  lemma GroupLostKeys(groups: map<nat, Group>, p: Sent)
    requires p.fec.groupId != 0 ==> p.fec.groupId in groups
    ensures GroupLost(groups, p).Keys == groups.Keys
  {
  }

  /** What losing packet `i` changes. */
  lemma LoseKeeps(r: Rec, i: nat, e: nat)
    requires Valid(r) && e < EPOCHS && i < |r.spaces[e].sent|
    ensures var p, t := r.spaces[e].sent[i], Lose(r, r.spaces[e].sent[i].pktNum, e);
            && t.groups.Keys == r.groups.Keys
            && t.spaces == r.spaces[e := r.spaces[e].(
                 sent := Remove(r.spaces[e].sent, i),
                 lost := r.spaces[e].lost + if p.inFlight then p.frames else [])]
            && (e == APPLICATION ==> t.bytesInFlight + FlightSize(p) == r.bytesInFlight)
            && (e != APPLICATION ==> t.bytesInFlight == r.bytesInFlight)
  {
    var p := r.spaces[e].sent[i];
    FindsItself(r.spaces[e].sent, i);
    InFlightBound(r.spaces[e].sent, i);
    assert p in r.spaces[e].sent;
    GroupLostKeys(r.groups, p);
    assert r.spaces[e].lost + [] == r.spaces[e].lost;
  }

  lemma ShrunkSpaces(spaces: seq<Space>, groups: set<nat>, e: nat, s: Space, i: nat)
    requires Grouped(spaces, groups) && AllOrdered(spaces) && e < |spaces|
    requires i < |spaces[e].sent| && s.sent == Remove(spaces[e].sent, i)
    ensures Grouped(spaces[e := s], groups) && AllOrdered(spaces[e := s])
  {
    RemoveOrdered(spaces[e].sent, i);
  }

  lemma LoseValid(r: Rec, pn: nat, e: nat)
    requires Valid(r) && e < EPOCHS
    ensures Valid(Lose(r, pn, e))
  {
    if Find(r.spaces[e].sent, pn).Some? {
      var i := Find(r.spaces[e].sent, pn).value;
      LoseKeeps(r, i, e);
      RemoveParts(r.spaces[e].sent, i);
      ShrunkSpaces(r.spaces, r.groups.Keys, e, Lose(r, pn, e).spaces[e], i);
    }
  }

  function LoseAll(r: Rec, pns: seq<nat>, e: nat): (t: Rec)
    requires Valid(r) && e < EPOCHS
    ensures Valid(t)
    decreases |pns|
  {
    if pns == [] then r
    else
      LoseValid(r, pns[0], e);
      LoseAll(Lose(r, pns[0], e), pns[1..], e)
  }

  /** `detect_lost_packets`: `now - delay` is the send time up to which packets are lost. */
  function Detect(r: Rec, e: nat, now: int, delay: int): (t: Rec)
    requires Valid(r) && e < EPOCHS
    ensures Valid(t)
  {
    var s := r.spaces[e];
    LoseAll(Timed(r, e, now, delay), LostPns(s.sent, s.largestAcked, now - delay), e)
  }

  /** The recomputed loss time of a space. */
  function Timed(r: Rec, e: nat, now: int, delay: int): (t: Rec)
    requires Valid(r) && e < EPOCHS
    ensures Valid(t) && t.spaces[e].sent == r.spaces[e].sent
  {
    var s := r.spaces[e];
    WithSpace(r, e, s.(lossTime := LossTime(s.sent, s.largestAcked, now - delay, delay, None)))
  }

  /** Index of the first lost packet. */
  function FirstLost(sent: seq<Sent>, largest: nat, limit: int): (i: nat)
    requires LostPns(sent, largest, limit) != []
    ensures i < |sent| && IsLost(sent[i], largest, limit)
  {
    if IsLost(sent[0], largest, limit) then 0 else 1 + FirstLost(sent[1..], largest, limit)
  }

  lemma RemoveLater(sent: seq<Sent>, k: nat)
    requires k + 1 < |sent|
    ensures Remove(sent, k + 1)[0] == sent[0] && Remove(sent, k + 1)[1..] == Remove(sent[1..], k)
    ensures sent[1..][k] == sent[k + 1]
  {
  }

  lemma {:induction false} FirstLostPn(sent: seq<Sent>, largest: nat, limit: int)
    requires LostPns(sent, largest, limit) != []
    ensures var i := FirstLost(sent, largest, limit);
            LostPns(sent, largest, limit) == [sent[i].pktNum] + LostPns(Remove(sent, i), largest, limit)
  {
    if IsLost(sent[0], largest, limit) {
      assert Remove(sent, 0) == sent[1..];
    } else {
      FirstLostPn(sent[1..], largest, limit);
      RemoveLater(sent, FirstLost(sent[1..], largest, limit));
    }
  }

  lemma {:induction false} FirstLostSurvivors(sent: seq<Sent>, largest: nat, limit: int)
    requires LostPns(sent, largest, limit) != []
    ensures Survivors(sent, largest, limit) == Survivors(Remove(sent, FirstLost(sent, largest, limit)), largest, limit)
  {
    if IsLost(sent[0], largest, limit) {
      assert Remove(sent, 0) == sent[1..];
    } else {
      FirstLostSurvivors(sent[1..], largest, limit);
      RemoveLater(sent, FirstLost(sent[1..], largest, limit));
    }
  }

  lemma {:induction false} FirstLostSilent(sent: seq<Sent>, largest: nat, limit: int)
    requires LostPns(sent, largest, limit) != []
    ensures var i := FirstLost(sent, largest, limit);
            Silent(sent, largest, limit) == Silent(Remove(sent, i), largest, limit) + Unheard(sent[i])
  {
    if IsLost(sent[0], largest, limit) {
      assert Remove(sent, 0) == sent[1..];
    } else {
      var k := FirstLost(sent[1..], largest, limit);
      FirstLostSilent(sent[1..], largest, limit);
      RemoveLater(sent, k);
    }
  }

  /** What losing `pns` in space `e` changes there: the packets, and the list of lost
      frames, while `gone` frames are heard of no more. */
  ghost predicate Lost(r: Rec, t: Rec, e: nat, sent: seq<Sent>, gone: multiset<Tagged>)
    requires |r.spaces| == |t.spaces| == EPOCHS && e < EPOCHS
  {
    && t.groups.Keys == r.groups.Keys
    && t.spaces[e] == r.spaces[e].(sent := sent, lost := t.spaces[e].lost)
    && FramesOf(sent) + multiset(t.spaces[e].lost) + gone == FramesOf(r.spaces[e].sent) + multiset(r.spaces[e].lost)
    && forall f :: 0 <= f < EPOCHS && f != e ==> t.spaces[f] == r.spaces[f]
  }

  lemma LoseIsLost(r: Rec, i: nat, e: nat)
    requires Valid(r) && e < EPOCHS && i < |r.spaces[e].sent|
    ensures var p := r.spaces[e].sent[i];
            && Valid(Lose(r, p.pktNum, e))
            && Lost(r, Lose(r, p.pktNum, e), e, Remove(r.spaces[e].sent, i),
                    Unheard(p))
  {
    LoseKeeps(r, i, e);
    LoseValid(r, r.spaces[e].sent[i].pktNum, e);
    RemoveParts(r.spaces[e].sent, i);
  }

  /** Losing the listed packets one by one leaves the survivors; frames go to `lost` or,
      if the packet was not in flight, nowhere. */
  lemma {:induction false} LoseAllOutcome(r: Rec, e: nat, largest: nat, limit: int)
    requires Valid(r) && e < EPOCHS
    ensures var sent := r.spaces[e].sent;
            var t := LoseAll(r, LostPns(sent, largest, limit), e);
            Valid(t) && Lost(r, t, e, Survivors(sent, largest, limit), Silent(sent, largest, limit))
    decreases |r.spaces[e].sent|
  {
    var sent := r.spaces[e].sent;
    if LostPns(sent, largest, limit) == [] {
      NoneLost(sent, largest, limit);
    } else {
      var i := FirstLost(sent, largest, limit);
      FirstLostPn(sent, largest, limit);
      FirstLostSurvivors(sent, largest, limit);
      FirstLostSilent(sent, largest, limit);
      LoseIsLost(r, i, e);
      var t := Lose(r, sent[i].pktNum, e);
      assert LostPns(sent, largest, limit)[1..] == LostPns(Remove(sent, i), largest, limit);
      LoseAllOutcome(t, e, largest, limit);
    }
  }

  /** Every listed packet is found when its turn comes: the lookup in `on_packets_lost` never
      fails. */
  lemma {:induction false} LoseAllFinds(r: Rec, e: nat, largest: nat, limit: int)
    requires Valid(r) && e < EPOCHS
    ensures var pns := LostPns(r.spaces[e].sent, largest, limit);
            LoseAll(r, pns, e).lostCount == r.lostCount + |pns|
    decreases |r.spaces[e].sent|
  {
    var sent := r.spaces[e].sent;
    if LostPns(sent, largest, limit) != [] {
      var i := FirstLost(sent, largest, limit);
      FirstLostPn(sent, largest, limit);
      LoseIsLost(r, i, e);
      FindsItself(sent, i);
      assert LostPns(sent, largest, limit)[1..] == LostPns(Remove(sent, i), largest, limit);
      LoseAllFinds(Lose(r, sent[i].pktNum, e), e, largest, limit);
    }
  }

  lemma DetectFindsAll(r: Rec, e: nat, now: int, delay: int)
    requires Valid(r) && e < EPOCHS
    ensures var s := r.spaces[e];
            Detect(r, e, now, delay).lostCount == r.lostCount + |LostPns(s.sent, s.largestAcked, now - delay)|
  {
    LoseAllFinds(Timed(r, e, now, delay), e, r.spaces[e].largestAcked, now - delay);
  }

  lemma {:induction false} NoneLost(sent: seq<Sent>, largest: nat, limit: int)
    requires LostPns(sent, largest, limit) == []
    ensures Survivors(sent, largest, limit) == sent && Silent(sent, largest, limit) == multiset{}
  {
    if sent != [] {
      NoneLost(sent[1..], largest, limit);
    }
  }

  lemma {:induction false} SurvivorMembers(sent: seq<Sent>, largest: nat, limit: int)
    ensures forall p :: p in Survivors(sent, largest, limit) <==> p in sent && !IsLost(p, largest, limit)
  {
    if sent != [] {
      SurvivorMembers(sent[1..], largest, limit);
    }
  }

  /** Packets at or below the largest acknowledged one that are kept. */
  predicate Pending(p: Sent, largest: nat, limit: int) {
    p.pktNum <= largest && !IsLost(p, largest, limit)
  }

  lemma {:induction false} LossTimeIsMinimum(sent: seq<Sent>, largest: nat, limit: int, delay: int, acc: Option<int>)
    ensures var t := LossTime(sent, largest, limit, delay, acc);
            && (t.None? <==> acc.None? && forall p :: p in sent ==> !Pending(p, largest, limit))
            && (t.Some? ==>
                  && (t == acc || exists p :: p in sent && Pending(p, largest, limit) && t.value == p.time + delay)
                  && (acc.Some? ==> t.value <= acc.value)
                  && forall p :: p in sent && Pending(p, largest, limit) ==> t.value <= p.time + delay)
    decreases |sent|
  {
    if sent != [] {
      var p := sent[0];
      var next := if Pending(p, largest, limit) then
                    (if acc.None? then Some(p.time + delay) else Some(Min(acc.value, p.time + delay)))
                  else acc;
      LossTimeIsMinimum(sent[1..], largest, limit, delay, next);
      assert forall q :: q in sent <==> q == p || q in sent[1..];
    }
  }

  lemma DetectIsLost(r: Rec, e: nat, now: int, delay: int)
    requires Valid(r) && e < EPOCHS
    ensures var s := r.spaces[e];
            Lost(Timed(r, e, now, delay), Detect(r, e, now, delay), e,
                 Survivors(s.sent, s.largestAcked, now - delay), Silent(s.sent, s.largestAcked, now - delay))
  {
    var t := Timed(r, e, now, delay);
    var largest, limit := r.spaces[e].largestAcked, now - delay;
    LoseAllOutcome(t, e, largest, limit);
    assert Detect(r, e, now, delay) == LoseAll(t, LostPns(t.spaces[e].sent, largest, limit), e);
  }

  lemma DetectedSpace(r: Rec, e: nat, now: int, delay: int)
    requires Valid(r) && e < EPOCHS
    ensures var s, t := r.spaces[e], Detect(r, e, now, delay).spaces[e];
            && t.sent == Survivors(s.sent, s.largestAcked, now - delay)
            && t.lossTime == LossTime(s.sent, s.largestAcked, now - delay, delay, None)
            && t.largestAcked == s.largestAcked && t.acked == s.acked
  {
    DetectIsLost(r, e, now, delay);
  }

  lemma SurvivorLossTime(sent: seq<Sent>, largest: nat, now: int, delay: int)
    ensures var kept, t := Survivors(sent, largest, now - delay), LossTime(sent, largest, now - delay, delay, None);
            && (t.None? <==> forall p :: p in kept ==> p.pktNum > largest)
            && (t.Some? ==>
                  && (exists p :: p in kept && p.pktNum <= largest && t.value == p.time + delay)
                  && now < t.value
                  && forall p :: p in kept && p.pktNum <= largest ==> t.value <= p.time + delay)
  {
    SurvivorMembers(sent, largest, now - delay);
    LossTimeIsMinimum(sent, largest, now - delay, delay, None);
  }

  /** After loss detection exactly those packets are left that are above the largest acknowledged
      one, or above `largest - 3` and newer than the limit. */
  lemma DetectOutcome(r: Rec, e: nat, now: int, delay: int)
    requires Valid(r) && e < EPOCHS
    ensures var s, t := r.spaces[e], Detect(r, e, now, delay).spaces[e];
            && (forall p :: p in t.sent <==>
                  p in s.sent && (p.pktNum <= s.largestAcked ==> s.largestAcked < p.pktNum + 3 && now - delay < p.time))
            && t.largestAcked == s.largestAcked && t.acked == s.acked
  {
    var s := r.spaces[e];
    DetectedSpace(r, e, now, delay);
    SurvivorMembers(s.sent, s.largestAcked, now - delay);
  }

  /** The loss time is the earliest at which one of the packets kept at or below the largest
      acknowledged one is to be declared lost; it lies in the future. */
  lemma DetectLossTime(r: Rec, e: nat, now: int, delay: int)
    requires Valid(r) && e < EPOCHS
    ensures var s, t := r.spaces[e], Detect(r, e, now, delay).spaces[e];
            && (t.lossTime.None? <==> forall p :: p in t.sent ==> p.pktNum > s.largestAcked)
            && (t.lossTime.Some? ==>
                  && (exists p :: p in t.sent && p.pktNum <= s.largestAcked && t.lossTime.value == p.time + delay)
                  && now < t.lossTime.value
                  && forall p :: p in t.sent && p.pktNum <= s.largestAcked ==> t.lossTime.value <= p.time + delay)
  {
    var s := r.spaces[e];
    DetectedSpace(r, e, now, delay);
    SurvivorLossTime(s.sent, s.largestAcked, now, delay);
  }

  /** Loss detection keeps the invariant; no frame is lost twice or from nowhere. */
  lemma DetectKeeps(r: Rec, e: nat, now: int, delay: int)
    requires Valid(r) && e < EPOCHS
    ensures var s, t := r.spaces[e], Detect(r, e, now, delay);
            && t.groups.Keys == r.groups.Keys && t.spaces[e].acked == s.acked
            && FramesOf(t.spaces[e].sent) + multiset(t.spaces[e].lost) + Silent(s.sent, s.largestAcked, now - delay)
               == FramesOf(s.sent) + multiset(s.lost)
            && forall f :: 0 <= f < EPOCHS && f != e ==> t.spaces[f] == r.spaces[f]
  {
    DetectIsLost(r, e, now, delay);
  }
}
