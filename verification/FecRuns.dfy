/** FEC credit over whole runs (src/recovery.rs, src/fec.rs): what a group remembers of the
    packets sent in it, and that their frames are credited exactly when enough of those packets
    were acknowledged. */
module FecRuns {
  import opened Prelude
  import opened RangeSets
  import opened FrameTypes
  import opened RecoverySpec
  import opened RecoveryRuns
  import opened AckRuns

  // ---------- joining a group ----------

  ghost predicate Indexed(slots: seq<Slot>) {
    forall i, j :: 0 <= i < j < |slots| ==> slots[i].index < slots[j].index
  }

  /** Entering a packet at its index keeps the order, all other entries, and replaces the one
      that was there. */
  lemma {:induction false} PutSlots(slots: seq<Slot>, s: Slot)
    requires Indexed(slots)
    ensures Indexed(Put(slots, s))
    ensures forall x :: x in Put(slots, s) <==> x == s || (x in slots && x.index != s.index)
  {
    if slots != [] && slots[0].index < s.index {
      var first, rest := slots[0], Put(slots[1..], s);
      PutSlots(slots[1..], s);
      assert forall x :: x in slots <==> x == first || x in slots[1..];
      forall x | x in rest
        ensures first.index < x.index
      {
        if x != s {
          var j :| 0 <= j < |slots[1..]| && slots[1..][j] == x;
          assert slots[j + 1] == x;
        }
      }
      IndexedBehind(first, rest);
      assert Put(slots, s) == [first] + rest;
    }
  }

  lemma IndexedBehind(first: Slot, rest: seq<Slot>)
    requires Indexed(rest) && forall x :: x in rest ==> first.index < x.index
    ensures Indexed([first] + rest)
  {
    var all := [first] + rest;
    forall i, j | 0 <= i < j < |all|
      ensures all[i].index < all[j].index
    {
      assert all[j] == rest[j - 1] && rest[j - 1] in rest;
    }
  }

  /** The first packet of a group gives it its numbers of data and repair packets; later ones
      leave both alone, and every one leaves the acknowledged ones and all other groups alone. */
  lemma JoinedOutcome(groups: map<nat, Group>, p: Sent)
    requires forall id :: id in groups ==> Indexed(groups[id].sent)
    ensures var id, after := p.fec.groupId, Joined(groups, p);
            if id == 0 then after == groups
            else
              && after.Keys == groups.Keys + {id}
              && (forall other :: other in groups && other != id ==> after[other] == groups[other])
              && Indexed(after[id].sent)
              && if id in groups then
                   && after[id] == groups[id].(sent := after[id].sent)
                   && forall x :: x in after[id].sent <==>
                        x == Slot(p.fec.index, p.pktNum) || (x in groups[id].sent && x.index != p.fec.index)
                 else after[id] == Group(p.fec.m, p.fec.n, [Slot(p.fec.index, p.pktNum)], {}, {})
  {
    if p.fec.groupId in groups {
      PutSlots(groups[p.fec.groupId].sent, Slot(p.fec.index, p.pktNum));
    }
  }

  // ---------- what a group knows of its packets ----------

  /** The packet has its place in its group, agrees with it, is not counted as acknowledged, and
      belongs to no other group. */
  ghost predicate EnrolledIn(groups: map<nat, Group>, q: Sent) {
    && (q.fec.groupId != 0 ==>
          && q.fec.groupId in groups
          && var g := groups[q.fec.groupId];
             && g.m == q.fec.m && g.n == q.fec.n
             && Slot(q.fec.index, q.pktNum) in g.sent && q.pktNum !in g.acked)
    && forall id :: id in groups && SentIn(groups[id], q.pktNum) ==> id == q.fec.groupId
  }

  ghost predicate Enrolled(r: Rec)
    requires |r.spaces| == EPOCHS
  {
    forall q :: q in r.spaces[APPLICATION].sent ==> EnrolledIn(r.groups, q)
  }

  /** Nothing changed in the group but which of its packets were acknowledged or lost. */
  ghost predicate SameGroup(g: Group, h: Group) {
    h == g.(acked := h.acked, lost := h.lost)
  }

  ghost predicate SameGroups(groups: map<nat, Group>, after: map<nat, Group>) {
    && after.Keys == groups.Keys
    && forall id :: id in groups ==> SameGroup(groups[id], after[id])
  }

  // ---------- acknowledging one packet ----------

  lemma {:induction false} MissingAll(slots: seq<Slot>, acked: set<nat>, s: Slot)
    requires s in slots && s.pn !in acked
    ensures s.pn in Missing(slots, acked)
  {
    if slots[0] != s {
      MissingAll(slots[1..], acked, s);
    }
  }

  lemma MissingAreSent(g: Group)
    ensures forall pn :: pn in Missing(g.sent, g.acked) ==> SentIn(g, pn)
  {
    forall pn | pn in Missing(g.sent, g.acked)
      ensures SentIn(g, pn)
    {
      MissingMembers(g.sent, g.acked, pn);
    }
  }

  lemma NotListed(groups: map<nat, Group>, id: nat, q: Sent, acked: set<nat>)
    requires EnrolledIn(groups, q) && id in groups && id != q.fec.groupId
    ensures q.pktNum !in Missing(groups[id].sent, acked)
  {
    MissingAreSent(groups[id].(acked := acked));
  }

  lemma BareStays(s: Space, pns: seq<nat>, i: nat)
    requires i < |s.sent| && s.sent[i].frames == []
    ensures |Credit(s, pns).sent| == |s.sent| && Credit(s, pns).sent[i] == s.sent[i]
  {
    CreditOnly(s, pns);
  }

  lemma CreditedMore(s: Space, pns: seq<nat>, f: Tagged)
    requires f in s.acked
    ensures f in Credit(s, pns).acked
  {
    CreditKeeps(s, pns);
  }

  /** Every outstanding packet that is listed loses its frames to the acknowledged ones. */
  lemma {:induction false} CreditAll(s: Space, pns: seq<nat>, i: nat)
    requires Ordered(s.sent) && i < |s.sent| && s.sent[i].pktNum in pns
    ensures |Credit(s, pns).sent| == |s.sent| && Credit(s, pns).sent[i] == s.sent[i].(frames := [])
    ensures forall f :: f in s.sent[i].frames ==> f in Credit(s, pns).acked
    decreases |pns|
  {
    hide FramesOf, InFlight;
    var q := s.sent[i];
    match Find(s.sent, pns[0])
    case None =>
      assert q in s.sent;
      CreditAll(s, pns[1..], i);
    case Some(k) =>
      var u := s.(sent := s.sent[k := s.sent[k].(frames := [])], acked := s.acked + s.sent[k].frames);
      if pns[0] == q.pktNum {
        FindsItself(s.sent, i);
        BareStays(u, pns[1..], i);
        forall f | f in q.frames
          ensures f in Credit(s, pns).acked
        {
          CreditedMore(u, pns[1..], f);
        }
      } else {
        assert u.sent[i] == q;
        CreditAll(u, pns[1..], i);
      }
  }

  lemma {:induction false} CreditNone(s: Space, pns: seq<nat>, i: nat)
    requires i < |s.sent| && s.sent[i].pktNum !in pns
    ensures |Credit(s, pns).sent| == |s.sent| && Credit(s, pns).sent[i] == s.sent[i]
  {
    CreditOnly(s, pns);
  }

  /** The space after taking out packet `i`, before credit is given. */
  function Before(r: Rec, i: nat): Space
    requires |r.spaces| == EPOCHS && i < |r.spaces[APPLICATION].sent|
  {
    TakenOut(r.spaces[APPLICATION], i)
  }

  lemma BeforeParts(r: Rec, pn: nat, i: nat, q: Sent)
    requires Valid(r) && Find(r.spaces[APPLICATION].sent, pn) == Some(i)
    requires q in r.spaces[APPLICATION].sent && q.pktNum != pn
    ensures Ordered(Before(r, i).sent) && q in Before(r, i).sent
  {
    RemoveOrdered(r.spaces[APPLICATION].sent, i);
  }

  lemma AfterAck(r: Rec, pn: nat, i: nat)
    requires Valid(r) && Find(r.spaces[APPLICATION].sent, pn) == Some(i)
    ensures var id, t := r.spaces[APPLICATION].sent[i].fec.groupId, PacketAcked(r, pn, APPLICATION).0;
            && |t.spaces| == EPOCHS
            && (id == 0 ==> t.groups == r.groups && t.spaces[APPLICATION] == Before(r, i))
            && (id != 0 ==>
                  && id in r.groups && t.groups == r.groups[id := r.groups[id].(acked := r.groups[id].acked + {pn})]
                  && var g := t.groups[id];
                     t.spaces[APPLICATION] ==
                       if |g.acked| >= g.m then Credit(Before(r, i), Missing(g.sent, g.acked)) else Before(r, i))
  {
    assert r.spaces[APPLICATION].sent[i] in r.spaces[APPLICATION].sent;
  }

  /** When a packet of a group is acknowledged, every other outstanding packet of the group that
      still has frames is credited if and only if as many distinct packets of the group as its
      `m` asks for were acknowledged; then its frames are among the acknowledged ones. */
  lemma CreditIff(r: Rec, pn: nat, i: nat, q: Sent)
    requires Valid(r) && Enrolled(r) && Find(r.spaces[APPLICATION].sent, pn) == Some(i)
    requires q in r.spaces[APPLICATION].sent && q.pktNum != pn && q.frames != []
    requires q.fec.groupId == r.spaces[APPLICATION].sent[i].fec.groupId != 0
    ensures q.fec.groupId in r.groups && |PacketAcked(r, pn, APPLICATION).0.spaces| == EPOCHS
    ensures var t := PacketAcked(r, pn, APPLICATION).0.spaces[APPLICATION];
            if |r.groups[q.fec.groupId].acked + {pn}| >= q.fec.m then
              q !in t.sent && q.(frames := []) in t.sent && forall f :: f in q.frames ==> f in t.acked
            else
              q in t.sent
  {
    hide PacketAcked, Credit, Missing;
    AfterAck(r, pn, i);
    BeforeParts(r, pn, i, q);
    assert EnrolledIn(r.groups, q);
    var s, t := Before(r, i), PacketAcked(r, pn, APPLICATION).0;
    var g := t.groups[q.fec.groupId];
    var k :| 0 <= k < |s.sent| && s.sent[k] == q;
    if |g.acked| >= g.m {
      var pns := Missing(g.sent, g.acked);
      MissingAll(g.sent, g.acked, Slot(q.fec.index, q.pktNum));
      CreditAll(s, pns, k);
      assert t.spaces[APPLICATION].sent[k] in t.spaces[APPLICATION].sent;
      CreditKeeps(s, pns);
      OnePerNumber(s.sent, Credit(s, pns).sent, k, q);
    }
  }

  lemma OnePerNumber(a: seq<Sent>, b: seq<Sent>, k: nat, q: Sent)
    requires Ordered(a) && SamePackets(a, b) && k < |a| && a[k] == q && b[k] != q
    ensures q !in b
  {
  }

  /** Acknowledging a packet leaves the packets of other groups, and those in none, alone. */
  lemma OthersKept(r: Rec, pn: nat, i: nat, q: Sent)
    requires Valid(r) && Enrolled(r) && Find(r.spaces[APPLICATION].sent, pn) == Some(i)
    requires q in r.spaces[APPLICATION].sent && q.pktNum != pn
    requires q.fec.groupId != r.spaces[APPLICATION].sent[i].fec.groupId
    ensures |PacketAcked(r, pn, APPLICATION).0.spaces| == EPOCHS
    ensures q in PacketAcked(r, pn, APPLICATION).0.spaces[APPLICATION].sent
  {
    hide PacketAcked, Credit, Missing;
    AfterAck(r, pn, i);
    BeforeParts(r, pn, i, q);
    assert EnrolledIn(r.groups, q);
    var s, t := Before(r, i), PacketAcked(r, pn, APPLICATION).0;
    var id := r.spaces[APPLICATION].sent[i].fec.groupId;
    if id != 0 {
      var g := t.groups[id];
      var pns := Missing(g.sent, g.acked);
      var k :| 0 <= k < |s.sent| && s.sent[k] == q;
      NotListed(r.groups, id, q, g.acked);
      CreditNone(s, pns, k);
      assert Credit(s, pns).sent[k] in Credit(s, pns).sent;
    }
  }

  // ---------- one step of a run ----------

  /** Once enough packets of the group were acknowledged, no outstanding one has frames left. */
  ghost predicate Settled(r: Rec, id: nat)
    requires |r.spaces| == EPOCHS
  {
    id in r.groups && |r.groups[id].acked| >= r.groups[id].m ==>
      forall q :: q in r.spaces[APPLICATION].sent && q.fec.groupId == id ==> q.frames == []
  }

  lemma SameGroupsTwice(a: map<nat, Group>, b: map<nat, Group>, c: map<nat, Group>)
    requires SameGroups(a, b) && SameGroups(b, c)
    ensures SameGroups(a, c)
  {
  }

  /** Packets that are thinned out stay enrolled, as long as no number of one that is left is
      newly acknowledged. */
  lemma ThinnedEnrolled(r: Rec, t: Rec)
    requires |r.spaces| == |t.spaces| == EPOCHS && Enrolled(r) && SameGroups(r.groups, t.groups)
    requires Thinned(r.spaces[APPLICATION].sent, t.spaces[APPLICATION].sent)
    requires forall q, id :: q in t.spaces[APPLICATION].sent && id in t.groups && q.pktNum in t.groups[id].acked ==>
               q.pktNum in r.groups[id].acked
    ensures Enrolled(t)
  {
    forall q | q in t.spaces[APPLICATION].sent
      ensures EnrolledIn(t.groups, q)
    {
      var p :| p in r.spaces[APPLICATION].sent && (q == p || q == p.(frames := []));
      assert EnrolledIn(r.groups, p);
      assert forall id :: id in t.groups && SentIn(t.groups[id], q.pktNum) ==> SentIn(r.groups[id], q.pktNum);
    }
  }

  /** A number that is acknowledged in a group is that of a packet sent in it. */
  ghost predicate AckedWereSent(groups: map<nat, Group>) {
    forall id, pn :: id in groups && pn in groups[id].acked ==> SentIn(groups[id], pn)
  }

  /** Which packets of which group count as acknowledged after a packet of any space was. */
  lemma AckedInGroups(r: Rec, pn: nat, e: nat)
    requires Valid(r) && e < EPOCHS
    ensures var t := PacketAcked(r, pn, e).0;
            && t.groups.Keys == r.groups.Keys
            && forall id :: id in r.groups ==>
                 t.groups[id] == r.groups[id].(
                   acked := r.groups[id].acked + if (id, pn) in LogEntry(r, pn, e) then {pn} else {})
  {
    hide PacketAcked, Credit, Missing, AllOrdered, InFlight;
    if Find(r.spaces[e].sent, pn).Some? {
      var i := Find(r.spaces[e].sent, pn).value;
      assert r.spaces[e].sent[i] in r.spaces[e].sent;
      hide Grouped;
      if e == APPLICATION {
        AfterAck(r, pn, i);
      } else {
        NoGroupAcked(r, pn, e, i);
      }
    } else {
      NothingAcked(r, pn, e);
    }
  }

  lemma AckedSent(r: Rec, pn: nat, e: nat)
    requires Valid(r) && e < EPOCHS && Enrolled(r) && AckedWereSent(r.groups)
    ensures AckedWereSent(PacketAcked(r, pn, e).0.groups)
  {
    hide PacketAcked;
    AckedInGroups(r, pn, e);
    var t := PacketAcked(r, pn, e).0;
    forall id, x | id in t.groups && x in t.groups[id].acked
      ensures SentIn(t.groups[id], x)
    {
      if x in r.groups[id].acked {
        assert SentIn(r.groups[id], x);
      } else {
        var p := r.spaces[e].sent[Find(r.spaces[e].sent, pn).value];
        assert p in r.spaces[e].sent && EnrolledIn(r.groups, p);
      }
    }
  }

  /** Acknowledging a packet in any space keeps what the groups know. */
  lemma PacketAckedGroups(r: Rec, pn: nat, e: nat)
    requires Valid(r) && e < EPOCHS && Enrolled(r) && AckedWereSent(r.groups)
    ensures var t := PacketAcked(r, pn, e).0;
            && Valid(t) && SameGroups(r.groups, t.groups) && Enrolled(t) && AckedWereSent(t.groups)
            && forall id :: id in r.groups ==>
                 t.groups[id].acked == r.groups[id].acked + (if (id, pn) in LogEntry(r, pn, e) then {pn} else {})
  {
    hide PacketAcked, AckedWereSent, Enrolled;
    AckedKeeps(r, pn, e);
    AckedInGroups(r, pn, e);
    AckedSent(r, pn, e);
    PacketAckedThins(r, pn, e, APPLICATION);
    var t := PacketAcked(r, pn, e).0;
    forall q, id | q in t.spaces[APPLICATION].sent && id in t.groups && q.pktNum in t.groups[id].acked
      ensures q.pktNum in r.groups[id].acked
    {
      EntryIsApplication(r, pn, e);
      GoneFrom(r, pn, e);
    }
    ThinnedEnrolled(r, t);
  }

  lemma EntryIsApplication(r: Rec, pn: nat, e: nat)
    requires Valid(r) && e < EPOCHS
    ensures LogEntry(r, pn, e) != {} ==> e == APPLICATION
  {
    if Find(r.spaces[e].sent, pn).Some? {
      assert r.spaces[e].sent[Find(r.spaces[e].sent, pn).value] in r.spaces[e].sent;
    }
  }

  lemma GoneFrom(r: Rec, pn: nat, e: nat)
    requires Valid(r) && e < EPOCHS
    ensures forall q :: q in PacketAcked(r, pn, e).0.spaces[e].sent ==> q.pktNum != pn
  {
    OneRemoved(r, pn, e, pn);
    FindMember(PacketAcked(r, pn, e).0.spaces[e].sent, pn);
  }

  lemma NoGroupAcked(r: Rec, pn: nat, e: nat, i: nat)
    requires Valid(r) && e < EPOCHS && e != APPLICATION && Find(r.spaces[e].sent, pn) == Some(i)
    ensures PacketAcked(r, pn, e).0.groups == r.groups && LogEntry(r, pn, e) == {}
    ensures PacketAcked(r, pn, e).0.spaces[APPLICATION] == r.spaces[APPLICATION]
  {
    assert r.spaces[e].sent[i] in r.spaces[e].sent;
  }

  lemma ThinnedSettled(r: Rec, t: Rec, id: nat)
    requires |r.spaces| == |t.spaces| == EPOCHS && Settled(r, id) && SameGroups(r.groups, t.groups)
    requires Thinned(r.spaces[APPLICATION].sent, t.spaces[APPLICATION].sent)
    requires id in t.groups ==> t.groups[id].acked == r.groups[id].acked
    ensures Settled(t, id)
  {
  }

  /** A packet of the group that is left when enough were acknowledged has no frames. */
  lemma LeftBare(r: Rec, pn: nat, i: nat, q: Sent)
    requires Valid(r) && Enrolled(r) && AckedWereSent(r.groups) && Find(r.spaces[APPLICATION].sent, pn) == Some(i)
    requires r.spaces[APPLICATION].sent[i].fec.groupId == q.fec.groupId != 0
    requires var t := PacketAcked(r, pn, APPLICATION).0;
             |t.spaces| == EPOCHS && q in t.spaces[APPLICATION].sent && q.fec.groupId in r.groups
             && |r.groups[q.fec.groupId].acked + {pn}| >= r.groups[q.fec.groupId].m
    ensures q.frames == []
  {
    hide PacketAcked, Credit, Missing;
    PacketAckedThins(r, pn, APPLICATION, APPLICATION);
    GoneFrom(r, pn, APPLICATION);
    var p :| p in r.spaces[APPLICATION].sent && (q == p || q == p.(frames := []));
    assert EnrolledIn(r.groups, p);
    if p.frames != [] {
      CreditIff(r, pn, i, p);
    }
  }

  /** Acknowledging a packet of a group settles it, and keeps every other one settled. */
  lemma AckSettles(r: Rec, pn: nat, e: nat, id: nat)
    requires Valid(r) && e < EPOCHS && Enrolled(r) && AckedWereSent(r.groups)
    requires (id, pn) in LogEntry(r, pn, e) || Settled(r, id)
    ensures |PacketAcked(r, pn, e).0.spaces| == EPOCHS && Settled(PacketAcked(r, pn, e).0, id)
  {
    hide PacketAcked, Enrolled, AckedWereSent;
    PacketAckedGroups(r, pn, e);
    PacketAckedThins(r, pn, e, APPLICATION);
    var t := PacketAcked(r, pn, e).0;
    if (id, pn) in LogEntry(r, pn, e) {
      EntryIsApplication(r, pn, e);
      var i := Find(r.spaces[e].sent, pn).value;
      forall q | id in t.groups && |t.groups[id].acked| >= t.groups[id].m
                 && q in t.spaces[APPLICATION].sent && q.fec.groupId == id
        ensures q.frames == []
      {
        LeftBare(r, pn, i, q);
      }
    } else {
      ThinnedSettled(r, t, id);
    }
  }

  lemma {:induction false} WalkSettles(r: Rec, pns: seq<nat>, e: nat, log: set<(nat, nat)>, id: nat)
    requires Valid(r) && e < EPOCHS && Enrolled(r) && AckedWereSent(r.groups)
    ensures var u := AckWalk(r, pns, e).0;
            && SameGroups(r.groups, u.groups) && Enrolled(u) && AckedWereSent(u.groups)
            && (Settled(r, id) || (exists pn :: (id, pn) in WalkLog(r, pns, e, log) && (id, pn) !in log) ==> Settled(u, id))
    decreases |pns|
  {
    hide PacketAcked, Settled, Enrolled, AckedWereSent, LogEntry;
    if pns != [] && !(r.spaces[e].sent != [] && pns[0] < r.spaces[e].sent[0].pktNum) {
      var t, more := PacketAcked(r, pns[0], e).0, log + LogEntry(r, pns[0], e);
      AckedKeeps(r, pns[0], e);
      PacketAckedGroups(r, pns[0], e);
      WalkSettles(t, pns[1..], e, more, id);
      SameGroupsTwice(r.groups, t.groups, AckWalk(r, pns, e).0.groups);
      EntryOf(r, pns[0], e);
      if Settled(r, id) || (id, pns[0]) in LogEntry(r, pns[0], e) {
        AckSettles(r, pns[0], e, id);
      }
    }
  }

  lemma EntryOf(r: Rec, pn: nat, e: nat)
    requires Valid(r) && e < EPOCHS
    ensures forall x :: x in LogEntry(r, pn, e) ==> x.1 == pn
  {
  }

  // ---------- losing packets ----------

  /** A lost packet that counts as in flight is noted in its group, and nothing else is there. */
  lemma LoseOutcome(r: Rec, i: nat, e: nat)
    requires Valid(r) && e < EPOCHS && i < |r.spaces[e].sent|
    ensures var p, t := r.spaces[e].sent[i], Lose(r, r.spaces[e].sent[i].pktNum, e);
            && t.groups.Keys == r.groups.Keys
            && forall id :: id in r.groups ==>
                 t.groups[id] == r.groups[id].(lost := r.groups[id].lost + if p.inFlight && p.fec.groupId == id != 0
                                                                            then {p.pktNum} else {})
  {
    FindsItself(r.spaces[e].sent, i);
    assert r.spaces[e].sent[i] in r.spaces[e].sent;
  }

  /** The same packets of every group count as acknowledged. */
  ghost predicate SameAcked(groups: map<nat, Group>, after: map<nat, Group>) {
    && after.Keys == groups.Keys
    && forall id :: id in groups ==> after[id] == groups[id].(lost := after[id].lost)
  }

  lemma {:induction false} LoseAllSame(r: Rec, pns: seq<nat>, e: nat)
    requires Valid(r) && e < EPOCHS
    ensures SameAcked(r.groups, LoseAll(r, pns, e).groups)
    decreases |pns|
  {
    if pns != [] {
      LoseValid(r, pns[0], e);
      var at := Find(r.spaces[e].sent, pns[0]);
      if at.Some? {
        LoseOutcome(r, at.value, e);
      }
      LoseAllSame(Lose(r, pns[0], e), pns[1..], e);
    }
  }

  lemma DetectSame(r: Rec, e: nat, now: int, delay: int)
    requires Valid(r) && e < EPOCHS
    ensures var t := Detect(r, e, now, delay);
            && SameAcked(r.groups, t.groups)
            && Thinned(r.spaces[APPLICATION].sent, t.spaces[APPLICATION].sent)
  {
    DetectOnly(r, e, now, delay);
    DetectOutcome(r, e, now, delay);
    LoseAllSame(Timed(r, e, now, delay), LostPns(r.spaces[e].sent, r.spaces[e].largestAcked, now - delay), e);
  }

  /** Everything that is neither sent nor acknowledged. */
  lemma KeptSettled(r: Rec, t: Rec, id: nat)
    requires |r.spaces| == |t.spaces| == EPOCHS && Enrolled(r) && AckedWereSent(r.groups)
    requires SameAcked(r.groups, t.groups) && Thinned(r.spaces[APPLICATION].sent, t.spaces[APPLICATION].sent)
    ensures Enrolled(t) && AckedWereSent(t.groups) && SameGroups(r.groups, t.groups) && (Settled(r, id) ==> Settled(t, id))
  {
    ThinnedEnrolled(r, t);
    forall g, pn | g in t.groups && pn in t.groups[g].acked
      ensures SentIn(t.groups[g], pn)
    {
      assert SentIn(r.groups[g], pn);
    }
    if Settled(r, id) {
      ThinnedSettled(r, t, id);
    }
  }

  // ---------- sending in a group ----------

  /** The packet is sent in group `id`. */
  ghost predicate InGroup(ev: Event, id: nat) {
    ev.Send? && ev.pkt.fec.groupId == id != 0
  }

  ghost predicate AllIndexed(groups: map<nat, Group>) {
    forall id :: id in groups ==> Indexed(groups[id].sent)
  }

  /** The packet has a number and an index of its own, and its group's numbers. */
  ghost predicate Joinable(groups: map<nat, Group>, p: Sent) {
    && (forall id :: id in groups ==> !SentIn(groups[id], p.pktNum))
    && (p.fec.groupId in groups ==>
          var g := groups[p.fec.groupId];
          g.m == p.fec.m && g.n == p.fec.n && forall x :: x in g.sent ==> x.index != p.fec.index)
  }

  lemma JoinedKeeps(groups: map<nat, Group>, p: Sent)
    requires AllIndexed(groups) && AckedWereSent(groups) && Joinable(groups, p)
    ensures AllIndexed(Joined(groups, p)) && AckedWereSent(Joined(groups, p))
    ensures EnrolledIn(Joined(groups, p), p)
    ensures forall q :: EnrolledIn(groups, q) && q.pktNum != p.pktNum ==> EnrolledIn(Joined(groups, p), q)
  {
    JoinedOutcome(groups, p);
    var after, id := Joined(groups, p), p.fec.groupId;
    hide Joined, Indexed;
    forall other, pn | other in after && pn in after[other].acked
      ensures SentIn(after[other], pn)
    {
      assert SentIn(groups[other], pn);
    }
    forall q | EnrolledIn(groups, q) && q.pktNum != p.pktNum
      ensures EnrolledIn(after, q)
    {
      StillEnrolled(groups, p, after, q);
    }
    NewEnrolled(groups, p, after);
  }

  /** What `JoinedOutcome` says of a packet that may join. */
  ghost predicate Grown(groups: map<nat, Group>, p: Sent, after: map<nat, Group>) {
    && var id := p.fec.groupId;
    && if id == 0 then after == groups
       else
         && after.Keys == groups.Keys + {id}
         && (forall other :: other in groups && other != id ==> after[other] == groups[other])
         && if id in groups then
              && after[id] == groups[id].(sent := after[id].sent)
              && forall x :: x in after[id].sent <==> x == Slot(p.fec.index, p.pktNum) || x in groups[id].sent
            else after[id] == Group(p.fec.m, p.fec.n, [Slot(p.fec.index, p.pktNum)], {}, {})
  }

  lemma StillEnrolled(groups: map<nat, Group>, p: Sent, after: map<nat, Group>, q: Sent)
    requires Grown(groups, p, after) && EnrolledIn(groups, q) && q.pktNum != p.pktNum
    ensures EnrolledIn(after, q)
  {
    forall id | id in after && SentIn(after[id], q.pktNum)
      ensures id == q.fec.groupId
    {
      assert id in groups && SentIn(groups[id], q.pktNum);
    }
  }

  lemma NewEnrolled(groups: map<nat, Group>, p: Sent, after: map<nat, Group>)
    requires Grown(groups, p, after) && Joinable(groups, p) && AckedWereSent(groups)
    ensures EnrolledIn(after, p)
  {
    assert forall id :: id in after && id != p.fec.groupId ==> id in groups && after[id] == groups[id];
    if p.fec.groupId in groups && p.pktNum in groups[p.fec.groupId].acked {
      assert SentIn(groups[p.fec.groupId], p.pktNum);
    }
  }

  lemma SendEnrolled(r: Rec, p: Sent, e: nat, now: int)
    requires Valid(r) && Sendable(r, p, e) && Enrolled(r) && AckedWereSent(r.groups) && AllIndexed(r.groups)
    requires e == APPLICATION ==> Joinable(r.groups, p)
    ensures var t := PacketSent(r, p, e, now);
            && Enrolled(t) && AckedWereSent(t.groups) && AllIndexed(t.groups)
            && forall id :: p.fec.groupId != id && Settled(r, id) && id != 0 ==> Settled(t, id)
  {
    SendOutcome(r, p, e, now);
    var t := PacketSent(r, p, e, now);
    if e == APPLICATION {
      JoinedKeeps(r.groups, p);
      JoinedOutcome(r.groups, p);
      forall q | q in t.spaces[APPLICATION].sent
        ensures EnrolledIn(t.groups, q)
      {
        assert q == p || (q in r.spaces[APPLICATION].sent && EnrolledIn(r.groups, q));
      }
    }
    hide Place, EnrolledIn, Joined, Indexed, Valid;
  }

  // ---------- one step of a run ----------

  /** What the groups know, and the packets know of their groups. */
  ghost predicate FecInv(b: Book)
    requires Shape(b)
  {
    Enrolled(b.rec) && AckedWereSent(b.rec.groups) && AllIndexed(b.rec.groups)
  }

  /** The step acknowledges a packet of the group. */
  ghost predicate AcksIn(b: Book, b': Book, id: nat) {
    exists pn :: (id, pn) in b'.ackLog && (id, pn) !in b.ackLog
  }

  lemma SameIndexed(groups: map<nat, Group>, after: map<nat, Group>)
    requires AllIndexed(groups) && SameGroups(groups, after)
    ensures AllIndexed(after)
  {
  }

  lemma WalkAndDetectFec(r: Rec, pns: seq<nat>, e: nat, now: int, delay: int, log: set<(nat, nat)>, id: nat)
    requires Valid(r) && e < EPOCHS && Enrolled(r) && AckedWereSent(r.groups) && AllIndexed(r.groups)
    ensures var t := WalkAndDetect(r, pns, e, now, delay);
            && SameGroups(r.groups, t.groups) && Enrolled(t) && AckedWereSent(t.groups) && AllIndexed(t.groups)
            && (Settled(r, id) || (exists pn :: (id, pn) in WalkLog(r, pns, e, log) && (id, pn) !in log) ==> Settled(t, id))
  {
    hide AllOrdered, Grouped, InFlight, AckWalk, WalkLog, Settled, Enrolled, AckedWereSent, AllIndexed, Detect;
    WalkSettles(r, pns, e, log, id);
    var (u, newly) := AckWalk(r, pns, e);
    SameIndexed(r.groups, u.groups);
    if newly {
      var t := Detect(u, e, now, delay);
      DetectSame(u, e, now, delay);
      KeptSettled(u, t, id);
      SameIndexed(u.groups, t.groups);
      SameGroupsTwice(r.groups, u.groups, t.groups);
    }
  }

  lemma AckFec(b: Book, ranges: seq<Range>, e: nat, now: int, delay: int, b': Book, id: nat)
    requires Inv(b) && Does(b, AckFrame(ranges, e, now, delay), b') && FecInv(b)
    ensures Shape(b') && FecInv(b') && (Settled(b.rec, id) || AcksIn(b, b', id) ==> Settled(b'.rec, id))
    ensures SameGroups(b.rec.groups, b'.rec.groups)
  {
    hide Valid, Balanced, Once, Logged, WalkAndDetect, AckWalk, Descending, WalkLog, Settled, Enrolled, AckedWereSent,
         AllIndexed;
    assert Shape(b') by {
      StepKeeps(b, AckFrame(ranges, e, now, delay), b');
    }
    assert ranges[|ranges| - 1] in ranges;
    if AckReceived(b.rec, ranges, e, now, delay).Ok? {
      var largest := ranges[|ranges| - 1].end - 1;
      NotedFec(b.rec, e, largest, id);
      hide Noted;
      WalkAndDetectFec(Noted(b.rec, e, largest), Descending(ranges), e, now, delay, b.ackLog, id);
    }
  }

  lemma NotedFec(r: Rec, e: nat, largest: nat, id: nat)
    requires Valid(r) && e < EPOCHS && Enrolled(r)
    ensures Enrolled(Noted(r, e, largest)) && Noted(r, e, largest).groups == r.groups
    ensures Settled(r, id) ==> Settled(Noted(r, e, largest), id)
  {
    assert Noted(r, e, largest).spaces[APPLICATION].sent == r.spaces[APPLICATION].sent;
  }

  lemma QuietFec(b: Book, ev: Event, b': Book, id: nat)
    requires Inv(b) && Does(b, ev, b') && FecInv(b) && !ev.Send? && !ev.AckFrame?
    ensures Shape(b') && FecInv(b') && (Settled(b.rec, id) ==> Settled(b'.rec, id)) && b'.ackLog == b.ackLog
    ensures SameGroups(b.rec.groups, b'.rec.groups)
  {
    assert Shape(b') by {
      StepKeeps(b, ev, b');
    }
    assert SameAcked(b.rec.groups, b'.rec.groups)
           && Thinned(b.rec.spaces[APPLICATION].sent, b'.rec.spaces[APPLICATION].sent) by {
      if ev.Timeout? {
        var (due, e) := Earliest(LossTimes(b.rec), ev.completed);
        if due.Some? {
          DetectSame(b.rec, e, ev.now, ev.delay);
        }
      }
    }
    KeptSettled(b.rec, b'.rec, id);
    SameIndexed(b.rec.groups, b'.rec.groups);
  }

  lemma StepFec(b: Book, ev: Event, b': Book, id: nat)
    requires Inv(b) && Does(b, ev, b') && FecInv(b) && id != 0
    requires ev.Send? && ev.e == APPLICATION ==> Joinable(b.rec.groups, ev.pkt)
    ensures Shape(b') && FecInv(b')
    ensures !InGroup(ev, id) && (Settled(b.rec, id) || AcksIn(b, b', id)) ==> Settled(b'.rec, id)
  {
    hide Settled, Enrolled, AckedWereSent, AllIndexed, Joinable;
    match ev
    case Send(p, e, now) =>
      SendEnrolled(b.rec, p, e, now);
      SentValid(b.rec, p, e, now);
    case AckFrame(ranges, e, now, delay) => AckFec(b, ranges, e, now, delay, b', id);
    case _ => QuietFec(b, ev, b', id);
  }

  // ---------- whole runs ----------

  /** How the connection numbers packets: each number once in a space; in a group each index
      once, and the same numbers of data and repair packets throughout. */
  ghost predicate Uniform(evs: seq<Event>) {
    forall i, j :: 0 <= i < j < |evs| && evs[i].Send? && evs[j].Send? ==>
      && (evs[i].e == evs[j].e ==> evs[i].pkt.pktNum != evs[j].pkt.pktNum)
      && (evs[i].pkt.fec.groupId == evs[j].pkt.fec.groupId != 0 ==>
            && evs[i].pkt.fec.m == evs[j].pkt.fec.m && evs[i].pkt.fec.n == evs[j].pkt.fec.n
            && evs[i].pkt.fec.index != evs[j].pkt.fec.index)
  }

  ghost predicate Opened(groups: map<nat, Group>, evs: seq<Event>, k: nat)
    requires k <= |evs|
  {
    forall id :: id in groups <==> exists j :: 0 <= j < k && InGroup(evs[j], id)
  }

  ghost predicate Holding(groups: map<nat, Group>, evs: seq<Event>, k: nat)
    requires k <= |evs|
  {
    forall id, j :: 0 <= j < k && InGroup(evs[j], id) ==>
      && id in groups && groups[id].m == evs[j].pkt.fec.m && groups[id].n == evs[j].pkt.fec.n
      && Slot(evs[j].pkt.fec.index, evs[j].pkt.pktNum) in groups[id].sent
  }

  ghost predicate HoldingOnly(groups: map<nat, Group>, evs: seq<Event>, k: nat)
    requires k <= |evs|
  {
    forall id, x :: id in groups && x in groups[id].sent ==>
      exists j :: 0 <= j < k && InGroup(evs[j], id) && x == Slot(evs[j].pkt.fec.index, evs[j].pkt.pktNum)
  }

  /** A group holds exactly the packets that were sent in it before step `k`, and their numbers. */
  ghost predicate FromSends(groups: map<nat, Group>, evs: seq<Event>, k: nat)
    requires k <= |evs|
  {
    Opened(groups, evs, k) && Holding(groups, evs, k) && HoldingOnly(groups, evs, k)
  }

  /** Packets of a group are sent in the application space. */
  ghost predicate InApplication(evs: seq<Event>, k: nat)
    requires k <= |evs|
  {
    forall j :: 0 <= j < k && evs[j].Send? && evs[j].pkt.fec.groupId != 0 ==> evs[j].e == APPLICATION
  }

  lemma MayJoin(groups: map<nat, Group>, evs: seq<Event>, k: nat)
    requires k < |evs| && FromSends(groups, evs, k) && Uniform(evs) && InApplication(evs, k)
    requires evs[k].Send? && evs[k].e == APPLICATION
    ensures Joinable(groups, evs[k].pkt)
  {
    var p := evs[k].pkt;
    forall id | id in groups
      ensures !SentIn(groups[id], p.pktNum)
    {
      forall x | x in groups[id].sent
        ensures x.pn != p.pktNum
      {
        var j :| 0 <= j < k && InGroup(evs[j], id) && x == Slot(evs[j].pkt.fec.index, evs[j].pkt.pktNum);
      }
    }
    if p.fec.groupId in groups {
      var i :| 0 <= i < k && InGroup(evs[i], p.fec.groupId);
      forall x | x in groups[p.fec.groupId].sent
        ensures x.index != p.fec.index
      {
        var j :| 0 <= j < k && InGroup(evs[j], p.fec.groupId) && x == Slot(evs[j].pkt.fec.index, evs[j].pkt.pktNum);
      }
    }
  }

  lemma JoinedGrown(groups: map<nat, Group>, p: Sent)
    requires AllIndexed(groups) && (p.fec.groupId != 0 ==> Joinable(groups, p))
    ensures Grown(groups, p, Joined(groups, p))
  {
    JoinedOutcome(groups, p);
  }

  lemma GrownOpened(groups: map<nat, Group>, p: Sent, after: map<nat, Group>, evs: seq<Event>, k: nat)
    requires k < |evs| && Opened(groups, evs, k) && Grown(groups, p, after) && evs[k].Send? && evs[k].pkt == p
    ensures Opened(after, evs, k + 1)
  {
    var id := p.fec.groupId;
    assert id != 0 ==> InGroup(evs[k], id);
    assert forall other: nat :: other in after <==> other in groups || (other == id && id != 0);
  }

  lemma GrownHolding(groups: map<nat, Group>, p: Sent, after: map<nat, Group>, evs: seq<Event>, k: nat)
    requires k < |evs| && Holding(groups, evs, k) && Grown(groups, p, after) && evs[k].Send? && evs[k].pkt == p
    requires p.fec.groupId in groups ==> groups[p.fec.groupId].m == p.fec.m && groups[p.fec.groupId].n == p.fec.n
    ensures Holding(after, evs, k + 1)
  {
    forall id, j | 0 <= j < k && InGroup(evs[j], id)
      ensures id in after && after[id].m == groups[id].m && after[id].n == groups[id].n
      ensures Slot(evs[j].pkt.fec.index, evs[j].pkt.pktNum) in after[id].sent
    {
      assert id in groups && Slot(evs[j].pkt.fec.index, evs[j].pkt.pktNum) in groups[id].sent;
    }
  }

  lemma GrownHoldingOnly(groups: map<nat, Group>, p: Sent, after: map<nat, Group>, evs: seq<Event>, k: nat)
    requires k < |evs| && HoldingOnly(groups, evs, k) && Grown(groups, p, after) && evs[k].Send? && evs[k].pkt == p
    ensures HoldingOnly(after, evs, k + 1)
  {
    forall id, x | id in after && x in after[id].sent
      ensures exists j :: 0 <= j < k + 1 && InGroup(evs[j], id) && x == Slot(evs[j].pkt.fec.index, evs[j].pkt.pktNum)
    {
      if id in groups && x in groups[id].sent {
        var j :| 0 <= j < k && InGroup(evs[j], id) && x == Slot(evs[j].pkt.fec.index, evs[j].pkt.pktNum);
        assert InGroup(evs[j], id);
      } else {
        assert InGroup(evs[k], id) && x == Slot(evs[k].pkt.fec.index, evs[k].pkt.pktNum);
      }
    }
  }

  lemma GrownFrom(groups: map<nat, Group>, p: Sent, after: map<nat, Group>, evs: seq<Event>, k: nat)
    requires k < |evs| && FromSends(groups, evs, k) && Grown(groups, p, after) && evs[k].Send? && evs[k].pkt == p
    requires p.fec.groupId in groups ==> groups[p.fec.groupId].m == p.fec.m && groups[p.fec.groupId].n == p.fec.n
    ensures FromSends(after, evs, k + 1)
  {
    hide Opened, Holding, HoldingOnly, Grown;
    GrownOpened(groups, p, after, evs, k);
    GrownHolding(groups, p, after, evs, k);
    GrownHoldingOnly(groups, p, after, evs, k);
  }

  lemma QuietOpened(groups: map<nat, Group>, after: map<nat, Group>, evs: seq<Event>, k: nat)
    requires k < |evs| && Opened(groups, evs, k) && SameGroups(groups, after) && !evs[k].Send?
    ensures Opened(after, evs, k + 1)
  {
    assert forall id :: !InGroup(evs[k], id);
  }

  lemma QuietHoldingOnly(groups: map<nat, Group>, after: map<nat, Group>, evs: seq<Event>, k: nat)
    requires k < |evs| && HoldingOnly(groups, evs, k) && SameGroups(groups, after)
    ensures HoldingOnly(after, evs, k + 1)
  {
    forall id, x | id in after && x in after[id].sent
      ensures exists j :: 0 <= j < k + 1 && InGroup(evs[j], id) && x == Slot(evs[j].pkt.fec.index, evs[j].pkt.pktNum)
    {
      var j :| 0 <= j < k && InGroup(evs[j], id) && x == Slot(evs[j].pkt.fec.index, evs[j].pkt.pktNum);
      assert InGroup(evs[j], id);
    }
  }

  lemma QuietFrom(groups: map<nat, Group>, after: map<nat, Group>, evs: seq<Event>, k: nat)
    requires k < |evs| && FromSends(groups, evs, k) && SameGroups(groups, after) && !evs[k].Send?
    ensures FromSends(after, evs, k + 1)
  {
    hide Opened, HoldingOnly;
    QuietOpened(groups, after, evs, k);
    QuietHoldingOnly(groups, after, evs, k);
  }

  lemma FromSend(r: Rec, evs: seq<Event>, k: nat)
    requires Valid(r) && k < |evs| && evs[k].Send? && Sendable(r, evs[k].pkt, evs[k].e) && Uniform(evs)
    requires AllIndexed(r.groups) && FromSends(r.groups, evs, k) && InApplication(evs, k)
    ensures InApplication(evs, k + 1)
    ensures FromSends(PacketSent(r, evs[k].pkt, evs[k].e, evs[k].now).groups, evs, k + 1)
    ensures evs[k].e == APPLICATION ==> Joinable(r.groups, evs[k].pkt)
  {
    var p := evs[k].pkt;
    hide FromSends, Uniform, Joinable, Valid, Grown, AllIndexed, Joined;
    if evs[k].e == APPLICATION {
      MayJoin(r.groups, evs, k);
      JoinableNumbers(r.groups, p);
    } else {
      NoGroupZero(r.groups, evs, k);
    }
    JoinedGrown(r.groups, p);
    GrownFrom(r.groups, p, Joined(r.groups, p), evs, k);
  }

  lemma NoGroupZero(groups: map<nat, Group>, evs: seq<Event>, k: nat)
    requires k <= |evs| && FromSends(groups, evs, k)
    ensures 0 !in groups
  {
  }

  lemma FromOther(b: Book, evs: seq<Event>, k: nat, b': Book)
    requires Inv(b) && k < |evs| && Does(b, evs[k], b') && FecInv(b) && !evs[k].Send?
    requires FromSends(b.rec.groups, evs, k) && InApplication(evs, k)
    ensures InApplication(evs, k + 1) && FromSends(b'.rec.groups, evs, k + 1)
  {
    var ev := evs[k];
    hide FromSends, Inv, Does, FecInv;
    if ev.AckFrame? {
      AckFec(b, ev.ranges, ev.e, ev.now, ev.delay, b', 1);
    } else {
      QuietFec(b, ev, b', 1);
    }
    QuietFrom(b.rec.groups, b'.rec.groups, evs, k);
  }

  lemma FromStep(b: Book, evs: seq<Event>, k: nat, b': Book)
    requires Inv(b) && k < |evs| && Does(b, evs[k], b') && FecInv(b) && Uniform(evs)
    requires FromSends(b.rec.groups, evs, k) && InApplication(evs, k)
    ensures InApplication(evs, k + 1) && FromSends(b'.rec.groups, evs, k + 1)
    ensures evs[k].Send? && evs[k].e == APPLICATION ==> Joinable(b.rec.groups, evs[k].pkt)
  {
    if evs[k].Send? {
      FromSend(b.rec, evs, k);
    } else {
      FromOther(b, evs, k, b');
    }
    hide FromSends, Uniform, Joinable, Valid, AllIndexed, InApplication, PacketSent, Enrolled, AckedWereSent;
  }

  lemma JoinableNumbers(groups: map<nat, Group>, p: Sent)
    requires Joinable(groups, p)
    ensures p.fec.groupId in groups ==> groups[p.fec.groupId].m == p.fec.m && groups[p.fec.groupId].n == p.fec.n
  {
  }

  /** In every run a group holds exactly the packets sent in it, with the numbers of data and
      repair packets that they carry, and the packets outstanding agree with it. */
  lemma {:induction false} GroupsOfRun(bs: seq<Book>, evs: seq<Event>, k: nat)
    requires Run(bs, evs) && Uniform(evs) && k < |bs|
    ensures Shape(bs[k]) && FecInv(bs[k]) && FromSends(bs[k].rec.groups, evs, k) && InApplication(evs, k)
  {
    hide Inv, Does, FromSends, Uniform, Enrolled, AckedWereSent, AllIndexed, InApplication;
    RunInv(bs, evs, k);
    if k == 0 {
      NoGroups(evs);
    } else {
      GroupsOfRun(bs, evs, k - 1);
      StepOfRun(bs, evs, k);
      FromStep(bs[k - 1], evs, k - 1, bs[k]);
      StepFec(bs[k - 1], evs[k - 1], bs[k], 1);
    }
  }

  lemma NoGroups(evs: seq<Event>)
    ensures FecInv(StartBook()) && FromSends(StartBook().rec.groups, evs, 0) && InApplication(evs, 0)
  {
  }

  /** The packets of the group that the log of acknowledgements lists. */
  function AckedOf(log: set<(nat, nat)>, id: nat): set<nat> {
    set x | x in log && x.0 == id :: x.1
  }

  lemma AckedOfGroup(b: Book, id: nat)
    requires Inv(b) && id in b.rec.groups
    ensures b.rec.groups[id].acked == AckedOf(b.ackLog, id)
  {
    forall pn
      ensures pn in b.rec.groups[id].acked <==> pn in AckedOf(b.ackLog, id)
    {
      assert (id, pn) in b.ackLog <==> pn in b.rec.groups[id].acked;
    }
  }

  /** Once a step acknowledges a packet of the group, and as long as none is sent in it: if as
      many distinct packets of the group were acknowledged as its packets ask for, none that is
      outstanding has a frame left to be sent again. */
  lemma {:induction false} CreditedOnceEnough(bs: seq<Book>, evs: seq<Event>, j: nat, k: nat, id: nat, q: Sent)
    requires Run(bs, evs) && Uniform(evs) && j < k < |bs| && id != 0
    requires AcksIn(bs[j], bs[j + 1], id) && forall i :: j < i < k ==> !InGroup(evs[i], id)
    ensures Shape(bs[k])
    ensures q in bs[k].rec.spaces[APPLICATION].sent && q.fec.groupId == id && |AckedOf(bs[k].ackLog, id)| >= q.fec.m ==>
              q.frames == []
  {
    hide Inv, Does, FromSends, Uniform;
    RunInv(bs, evs, k);
    SettledSince(bs, evs, j, k, id);
    GroupsOfRun(bs, evs, k);
    if q in bs[k].rec.spaces[APPLICATION].sent && q.fec.groupId == id {
      assert EnrolledIn(bs[k].rec.groups, q);
      AckedOfGroup(bs[k], id);
    }
  }

  lemma {:induction false} SettledSince(bs: seq<Book>, evs: seq<Event>, j: nat, k: nat, id: nat)
    requires Run(bs, evs) && Uniform(evs) && j < k < |bs| && id != 0
    requires AcksIn(bs[j], bs[j + 1], id) && forall i :: j < i < k ==> !InGroup(evs[i], id)
    ensures Shape(bs[k]) && Settled(bs[k].rec, id)
    decreases k
  {
    hide Inv, Does, FromSends, Uniform, Enrolled, AckedWereSent, AllIndexed, InApplication, Settled, AcksIn;
    GroupsOfRun(bs, evs, k - 1);
    StepOfRun(bs, evs, k);
    FromStep(bs[k - 1], evs, k - 1, bs[k]);
    StepFec(bs[k - 1], evs[k - 1], bs[k], id);
    if j + 1 < k {
      SettledSince(bs, evs, j, k - 1, id);
    } else {
      SendAcksNone(bs[j], evs[j], bs[k], id);
    }
  }

  lemma SendAcksNone(b: Book, ev: Event, b': Book, id: nat)
    requires Inv(b) && Does(b, ev, b') && AcksIn(b, b', id)
    ensures !InGroup(ev, id)
  {
  }
}
