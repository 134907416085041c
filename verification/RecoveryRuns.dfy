/** Loss recovery over whole runs: where every frame goes, what the congestion controller is
    told, and when FEC may credit a frame. */
module RecoveryRuns {
  import opened Prelude
  import opened FrameTypes
  import opened RangeSets
  import opened RecoverySpec

  // ---------- the remaining operations ----------

  /** The numbers of an ACK frame from the largest down. */
  function Descending(ranges: seq<Range>): seq<nat> {
    var s := Flat(ranges);
    seq(|s|, i requires 0 <= i < |s| => s[|s| - 1 - i])
  }

  lemma DescendingLists(ranges: seq<Range>)
    requires Canonical(ranges)
    ensures Decreasing(Descending(ranges))
    ensures forall x: nat :: x in Descending(ranges) <==> Member(ranges, x)
  {
    FlatEnumerates(ranges);
    var s, d := Flat(ranges), Descending(ranges);
    forall x: nat
      ensures x in d <==> x in s
    {
      if x in s {
        var i :| 0 <= i < |s| && s[i] == x;
        assert d[|s| - 1 - i] == x;
      }
    }
  }

  function LargestAcked(s: Space, largest: nat): nat {
    if s.largestAcked == U64_MAX then largest else Max(s.largestAcked, largest)
  }

  /** The state in which the walk over the ranges starts. */
  function Noted(r: Rec, e: nat, largest: nat): (t: Rec)
    requires Valid(r) && e < EPOCHS
    ensures Valid(t)
  {
    WithSpace(r, e, r.spaces[e].(largestAcked := LargestAcked(r.spaces[e], largest)))
  }

  /** `on_ack_received`: `delay` is the loss delay computed from the round-trip time. */
  function AckReceived(r: Rec, ranges: seq<Range>, e: nat, now: int, delay: int): (t: Result<Rec>)
    requires Valid(r) && e < EPOCHS && ranges != [] && ranges[|ranges| - 1].end > 0
    ensures t.Ok? ==> Valid(t.value)
  {
    var largest := ranges[|ranges| - 1].end - 1;
    if largest > r.spaces[e].largestSent then Err(InvalidPacket)
    else Ok(WalkAndDetect(Noted(r, e, largest), Descending(ranges), e, now, delay))
  }

  /** The walk over the acknowledged numbers, and loss detection if any of them was new. */
  function WalkAndDetect(r: Rec, pns: seq<nat>, e: nat, now: int, delay: int): (t: Rec)
    requires Valid(r) && e < EPOCHS
    ensures Valid(t)
  {
    var (u, newly) := AckWalk(r, pns, e);
    if newly then Detect(u, e, now, delay) else u
  }

  /** Before loss detection the packets that are left are exactly those that the ranges do
      not list. */
  lemma AckRemovesExactly(r: Rec, ranges: seq<Range>, e: nat, pn: nat)
    requires Valid(r) && e < EPOCHS && Canonical(ranges) && ranges != [] && NonEmpty(ranges)
    ensures var u := AckWalk(Noted(r, e, ranges[|ranges| - 1].end - 1), Descending(ranges), e).0;
            Find(u.spaces[e].sent, pn).Some? <==> Find(r.spaces[e].sent, pn).Some? && !Member(ranges, pn)
  {
    var t := Noted(r, e, ranges[|ranges| - 1].end - 1);
    DescendingLists(ranges);
    EarlyExitLosesNothing(t, Descending(ranges), e);
    AckAllRemoves(t, Descending(ranges), e, pn);
  }

  /** The epoch whose timer is due first, the lowest one if several are; the application epoch
      does not count before the handshake is complete. */
  function Earliest(times: seq<Option<int>>, completed: bool): (r: (Option<int>, nat))
    requires |times| == EPOCHS
    ensures r.1 < EPOCHS && r.0 == times[r.1] && (r.1 == APPLICATION ==> completed)
    ensures r.0.None? ==> r.1 == 0
    ensures forall e :: 0 <= e < r.1 && times[e].Some? ==> r.0.Some? && r.0.value < times[e].value
    ensures forall e :: 0 <= e < EPOCHS && times[e].Some? && (e == APPLICATION ==> completed) ==>
              r.0.Some? && r.0.value <= times[e].value
  {
    var (t0, e0) := (times[0], 0);
    var (t1, e1) := if times[1].Some? && (t0.None? || times[1].value < t0.value) then (times[1], 1) else (t0, e0);
    if completed && times[2].Some? && (t1.None? || times[2].value < t1.value) then (times[2], 2) else (t1, e1)
  }

  function LossTimes(r: Rec): seq<Option<int>>
    requires |r.spaces| == EPOCHS
  {
    [r.spaces[0].lossTime, r.spaces[1].lossTime, r.spaces[2].lossTime]
  }

  function ElicitingTimes(r: Rec): seq<Option<int>>
    requires |r.spaces| == EPOCHS
  {
    [r.spaces[0].lastEliciting, r.spaces[1].lastEliciting, r.spaces[2].lastEliciting]
  }

  /** `on_loss_detection_timeout`. */
  function TimedOut(r: Rec, completed: bool, now: int, delay: int): (t: Rec)
    requires Valid(r)
    ensures Valid(t)
  {
    var (due, e) := Earliest(LossTimes(r), completed);
    if due.Some? then Detect(r, e, now, delay)
    else
      var probe := Earliest(ElicitingTimes(r), completed).1;
      WithSpace(r, probe, r.spaces[probe].(probes := 2))
  }

  /** `drop_unacked_data`. */
  function DropSpace(r: Rec, e: nat): (t: Rec)
    requires Valid(r) && e < EPOCHS
    ensures Valid(t)
  {
    var s := r.spaces[e];
    WithSpace(r, e, s.(sent := [], acked := [], lost := [], lossTime := None, probes := 0, lastEliciting := None)).(
      bytesInFlight := if e >= 2 then SaturatingSub(r.bytesInFlight, InFlight(s.sent)) else r.bytesInFlight)
  }

  // ---------- history ----------

  /** The recovery state with its history: per space the frames ever sent, those handed to
      the connection as acknowledged or lost, and those discarded; and the pairs of FEC
      group and packet number ever acknowledged. */
  datatype Book = Book(rec: Rec, sent: seq<multiset<Tagged>>, acked: seq<multiset<Tagged>>, lost: seq<multiset<Tagged>>,
                       discarded: seq<multiset<Tagged>>, ackLog: set<(nat, nat)>)

  datatype Event =
    | Send(pkt: Sent, e: nat, now: int)
    | AckFrame(ranges: seq<Range>, e: nat, now: int, delay: int)
    | Timeout(completed: bool, now: int, delay: int)
    | DropEpoch(e: nat)
    | DrainAcked(e: nat)
    | DrainLost(e: nat)

  function StartBook(): Book {
    var none := [multiset{}, multiset{}, multiset{}];
    Book(Start(), none, none, none, none, {})
  }

  function Add(ms: seq<multiset<Tagged>>, e: nat, m: multiset<Tagged>): seq<multiset<Tagged>>
    requires e < |ms|
  {
    ms[e := ms[e] + m]
  }

  ghost predicate Shape(b: Book) {
    && Valid(b.rec)
    && |b.sent| == |b.acked| == |b.lost| == |b.discarded| == EPOCHS
  }

  /** The log entry for a packet about to be acknowledged. */
  function LogEntry(r: Rec, pn: nat, e: nat): set<(nat, nat)>
    requires Valid(r) && e < EPOCHS
  {
    match Find(r.spaces[e].sent, pn)
    case None => {}
    case Some(i) =>
      var id := r.spaces[e].sent[i].fec.groupId;
      if id == 0 then {} else {(id, pn)}
  }

  /** The log after the walk of an ACK frame. */
  function WalkLog(r: Rec, pns: seq<nat>, e: nat, log: set<(nat, nat)>): set<(nat, nat)>
    requires Valid(r) && e < EPOCHS
    decreases |pns|
  {
    if pns == [] || (r.spaces[e].sent != [] && pns[0] < r.spaces[e].sent[0].pktNum) then log
    else
      AckedKeeps(r, pns[0], e);
      WalkLog(PacketAcked(r, pns[0], e).0, pns[1..], e, log + LogEntry(r, pns[0], e))
  }

  ghost function SilentIn(r: Rec, e: nat, now: int, delay: int): multiset<Tagged>
    requires Valid(r) && e < EPOCHS
  {
    Silent(r.spaces[e].sent, r.spaces[e].largestAcked, now - delay)
  }

  /** The frames of a packet carry its number and their place in it. */
  predicate Numbered(p: Sent) {
    forall k :: 0 <= k < |p.frames| ==> p.frames[k].pn == p.pktNum && p.frames[k].place == k
  }

  /** A packet number is used once in its space. */
  ghost predicate Does(b: Book, ev: Event, b': Book)
    requires Shape(b)
  {
    match ev
    case Send(p, e, now) =>
      && e < EPOCHS && Sendable(b.rec, p, e)
      && Numbered(p) && (forall t :: t in b.sent[e] ==> t.pn != p.pktNum)
      && b' == b.(rec := PacketSent(b.rec, p, e, now), sent := Add(b.sent, e, multiset(p.frames)))
    case AckFrame(ranges, e, now, delay) =>
      && e < EPOCHS && Canonical(ranges) && NonEmpty(ranges) && ranges != []
      && (assert ranges[|ranges| - 1] in ranges;
          match AckReceived(b.rec, ranges, e, now, delay)
          case Err(_) => b' == b
          case Ok(t) =>
            var start := Noted(b.rec, e, ranges[|ranges| - 1].end - 1);
            var (u, newly) := AckWalk(start, Descending(ranges), e);
            b' == b.(rec := t, ackLog := WalkLog(start, Descending(ranges), e, b.ackLog),
                     discarded := if newly then Add(b.discarded, e, SilentIn(u, e, now, delay)) else b.discarded))
    case Timeout(completed, now, delay) =>
      var (due, e) := Earliest(LossTimes(b.rec), completed);
      b' == b.(rec := TimedOut(b.rec, completed, now, delay),
               discarded := if due.Some? then Add(b.discarded, e, SilentIn(b.rec, e, now, delay)) else b.discarded)
    case DropEpoch(e) =>
      && e < EPOCHS
      && var s := b.rec.spaces[e];
         b' == b.(rec := DropSpace(b.rec, e),
                  discarded := Add(b.discarded, e, FramesOf(s.sent) + multiset(s.acked) + multiset(s.lost)))
    case DrainAcked(e) =>
      && e < EPOCHS
      && var s := b.rec.spaces[e];
         b' == b.(rec := WithSpace(b.rec, e, s.(acked := [])), acked := Add(b.acked, e, multiset(s.acked)))
    case DrainLost(e) =>
      && e < EPOCHS
      && var s := b.rec.spaces[e];
         b' == b.(rec := WithSpace(b.rec, e, s.(lost := [])), lost := Add(b.lost, e, multiset(s.lost)))
  }

  /** The frames a space still holds: outstanding, or waiting to be processed. */
  ghost function Held(s: Space): multiset<Tagged> {
    FramesOf(s.sent) + multiset(s.acked) + multiset(s.lost)
  }

  /** Every frame sent in space `e` is in exactly one place. */
  ghost predicate Balanced(b: Book, e: nat)
    requires Shape(b) && e < EPOCHS
  {
    b.sent[e] == Held(b.rec.spaces[e]) + b.acked[e] + b.lost[e] + b.discarded[e]
  }

  /** A group counts as acknowledged exactly the packets of it in the log. */
  ghost predicate Logged(groups: map<nat, Group>, log: set<(nat, nat)>) {
    forall id, pn :: (id, pn) in log <==> id in groups && pn in groups[id].acked
  }

  /** No frame of a packet is counted twice. */
  ghost predicate Once(sent: multiset<Tagged>) {
    forall t :: t in sent ==> sent[t] == 1
  }

  ghost predicate Inv(b: Book) {
    && Shape(b) && (forall e :: 0 <= e < EPOCHS ==> Balanced(b, e)) && Logged(b.rec.groups, b.ackLog)
    && (forall e :: 0 <= e < EPOCHS ==> Once(b.sent[e]))
  }

  // ---------- FEC credit ----------

  /** Packet `pn` was sent in the group. */
  ghost predicate SentIn(g: Group, pn: nat) {
    exists slot :: slot in g.sent && slot.pn == pn
  }

  lemma {:induction false} MissingMembers(slots: seq<Slot>, acked: set<nat>, pn: nat)
    requires pn in Missing(slots, acked)
    ensures pn !in acked && exists slot :: slot in slots && slot.pn == pn
  {
    if slots[0].pn == pn && pn !in acked {
      assert slots[0] in slots;
    } else {
      MissingMembers(slots[1..], acked, pn);
    }
  }

  lemma {:induction false} CreditOnly(s: Space, pns: seq<nat>)
    ensures SamePackets(s.sent, Credit(s, pns).sent)
    ensures forall i :: 0 <= i < |s.sent| && Credit(s, pns).sent[i] != s.sent[i] ==>
              s.sent[i].pktNum in pns && Credit(s, pns).sent[i].frames == []
    decreases |pns|
  {
    if pns != [] {
      CreditKeeps(s, pns);
      match Find(s.sent, pns[0])
      case None => CreditOnly(s, pns[1..]);
      case Some(i) =>
        var bare := s.sent[i].(frames := []);
        CreditOnly(s.(sent := s.sent[i := bare], acked := s.acked + s.sent[i].frames), pns[1..]);
    }
  }

  /** The outstanding application packets after an acknowledgement. */
  lemma ApplicationAfter(r: Rec, pn: nat, e: nat, i: nat)
    requires Valid(r) && e < EPOCHS && Find(r.spaces[e].sent, pn) == Some(i)
    ensures var p := r.spaces[e].sent[i];
            var before := WithSpace(r, e, TakenOut(r.spaces[e], i)).spaces[APPLICATION];
            && (p.fec.groupId != 0 ==> p.fec.groupId in r.groups)
            && PacketAcked(r, pn, e).0.spaces[APPLICATION].sent ==
                 if p.fec.groupId == 0 then before.sent
                 else match RecoveredPns(GroupAcked(r.groups[p.fec.groupId], pn))
                   case None => before.sent
                   case Some(pns) => Credit(before, pns).sent
  {
    assert r.spaces[e].sent[i] in r.spaces[e].sent;
  }

  /** Taking out one packet leaves the others. */
  lemma OthersStay(r: Rec, pn: nat, e: nat, i: nat, q: Sent)
    requires Valid(r) && e < EPOCHS && Find(r.spaces[e].sent, pn) == Some(i)
    requires q in r.spaces[APPLICATION].sent && !(e == APPLICATION && q.pktNum == pn)
    ensures q in WithSpace(r, e, TakenOut(r.spaces[e], i)).spaces[APPLICATION].sent
  {
    RemoveOrdered(r.spaces[e].sent, i);
  }

  /** When acknowledging `pn` changes another outstanding packet `q`, FEC credits `q`: then
      `q` was sent in the same group, was not acknowledged, and the group has at least `m`
      distinct packets in the log of acknowledgements. */
  lemma CreditNeedsEnoughAcks(r: Rec, log: set<(nat, nat)>, pn: nat, e: nat, q: Sent)
    requires Valid(r) && e < EPOCHS && Logged(r.groups, log)
    requires q in r.spaces[APPLICATION].sent && !(e == APPLICATION && q.pktNum == pn)
    requires q !in PacketAcked(r, pn, e).0.spaces[APPLICATION].sent
    ensures var i := Find(r.spaces[e].sent, pn);
            && i.Some?
            && var id := r.spaces[e].sent[i.value].fec.groupId;
               && id in r.groups
               && var g := GroupAcked(r.groups[id], pn);
                  && |g.acked| >= g.m
                  && SentIn(g, q.pktNum) && q.pktNum !in g.acked
                  && forall x :: x in g.acked ==> (id, x) in log + LogEntry(r, pn, e)
    ensures q.(frames := []) in PacketAcked(r, pn, e).0.spaces[APPLICATION].sent
  {
    hide PacketAcked, Credit, Missing, Logged, TakenOut;
    var at := Find(r.spaces[e].sent, pn);
    assert at.Some? by {
      NothingAcked(r, pn, e);
    }
    var i := at.value;
    var p := r.spaces[e].sent[i];
    ApplicationAfter(r, pn, e, i);
    OthersStay(r, pn, e, i, q);
    var before := WithSpace(r, e, TakenOut(r.spaces[e], i)).spaces[APPLICATION];
    var g := GroupAcked(r.groups[p.fec.groupId], pn);
    var pns := RecoveredPns(g).value;
    CreditOnly(before, pns);
    var k :| 0 <= k < |before.sent| && before.sent[k] == q;
    var after := Credit(before, pns).sent;
    assert after[k] in after;
    MissingMembers(g.sent, g.acked, q.pktNum);
    LoggedAfter(r.groups, p.fec.groupId, pn, log);
  }

  lemma NothingAcked(r: Rec, pn: nat, e: nat)
    requires Valid(r) && e < EPOCHS
    ensures Find(r.spaces[e].sent, pn).None? ==> PacketAcked(r, pn, e).0 == r
  {
  }

  lemma LoggedAfter(groups: map<nat, Group>, id: nat, pn: nat, log: set<(nat, nat)>)
    requires Logged(groups, log) && id in groups
    ensures forall x :: x in GroupAcked(groups[id], pn).acked ==> (id, x) in log + {(id, pn)}
  {
  }

  // ---------- every step keeps the books ----------

  lemma AckedLogged(r: Rec, log: set<(nat, nat)>, pn: nat, e: nat)
    requires Valid(r) && e < EPOCHS && Logged(r.groups, log)
    ensures Logged(PacketAcked(r, pn, e).0.groups, log + LogEntry(r, pn, e))
  {
    if Find(r.spaces[e].sent, pn).Some? {
      var p := r.spaces[e].sent[Find(r.spaces[e].sent, pn).value];
      if p.fec.groupId != 0 {
        assert p in r.spaces[e].sent;
        var t := PacketAcked(r, pn, e).0;
        assert t.groups == r.groups[p.fec.groupId := GroupAcked(r.groups[p.fec.groupId], pn)];
      }
    }
  }

  lemma {:induction false} WalkKeeps(r: Rec, pns: seq<nat>, e: nat, log: set<(nat, nat)>)
    requires Valid(r) && e < EPOCHS && Logged(r.groups, log)
    ensures var t := AckWalk(r, pns, e).0;
            && Logged(t.groups, WalkLog(r, pns, e, log))
            && forall f :: 0 <= f < EPOCHS ==> FramesKept(r.spaces[f], t.spaces[f])
    decreases |pns|
  {
    if pns != [] && !(r.spaces[e].sent != [] && pns[0] < r.spaces[e].sent[0].pktNum) {
      AckedKeeps(r, pns[0], e);
      AckedLogged(r, log, pns[0], e);
      WalkKeeps(PacketAcked(r, pns[0], e).0, pns[1..], e, log + LogEntry(r, pns[0], e));
    }
  }

  lemma {:induction false} LoseAllGroups(r: Rec, pns: seq<nat>, e: nat, log: set<(nat, nat)>)
    requires Valid(r) && e < EPOCHS && Logged(r.groups, log)
    ensures Logged(LoseAll(r, pns, e).groups, log)
    decreases |pns|
  {
    if pns != [] {
      LoseValid(r, pns[0], e);
      LoseLogged(r, pns[0], e, log);
      LoseAllGroups(Lose(r, pns[0], e), pns[1..], e, log);
    }
  }

  lemma LoseLogged(r: Rec, pn: nat, e: nat, log: set<(nat, nat)>)
    requires Valid(r) && e < EPOCHS && Logged(r.groups, log)
    ensures Logged(Lose(r, pn, e).groups, log)
  {
    if Find(r.spaces[e].sent, pn).Some? {
      var p := r.spaces[e].sent[Find(r.spaces[e].sent, pn).value];
      assert p in r.spaces[e].sent;
      var t := Lose(r, pn, e);
      assert t.groups == r.groups || t.groups == GroupLost(r.groups, p);
    }
  }

  /** What loss detection changes, as the books see it. */
  lemma DetectBalanced(r: Rec, e: nat, now: int, delay: int, log: set<(nat, nat)>)
    requires Valid(r) && e < EPOCHS && Logged(r.groups, log)
    ensures var t := Detect(r, e, now, delay);
            && Logged(t.groups, log)
            && t.spaces[e].acked == r.spaces[e].acked
            && FramesOf(t.spaces[e].sent) + multiset(t.spaces[e].lost) + SilentIn(r, e, now, delay)
               == FramesOf(r.spaces[e].sent) + multiset(r.spaces[e].lost)
            && forall f :: 0 <= f < EPOCHS && f != e ==> t.spaces[f] == r.spaces[f]
  {
    DetectKeeps(r, e, now, delay);
    LoseAllGroups(Timed(r, e, now, delay), LostPns(r.spaces[e].sent, r.spaces[e].largestAcked, now - delay), e, log);
  }

  lemma SendKeeps(b: Book, p: Sent, e: nat, now: int, b': Book)
    requires Inv(b) && Does(b, Send(p, e, now), b')
    ensures Inv(b')
  {
    hide Place, Ordered, Grouped, Joined, FramesOf, Find, Once, InFlight;
    SentValid(b.rec, p, e, now);
    forall f | 0 <= f < EPOCHS
      ensures Balanced(b', f)
    {
      assert Balanced(b, f);
    }
    JoinedLogged(b.rec.groups, p, b.ackLog);
    TagsOnce(p.frames, 0);
    SentOnce(b.sent[e], p);
  }

  lemma {:induction false} TagsOnce(frames: seq<Tagged>, from: nat)
    requires forall k :: 0 <= k < |frames| ==> frames[k].place == from + k
    ensures Once(multiset(frames))
    ensures forall t :: t in frames ==> from <= t.place
  {
    if frames != [] {
      assert frames == [frames[0]] + frames[1..];
      TagsOnce(frames[1..], from + 1);
    }
  }

  lemma SentOnce(sent: multiset<Tagged>, p: Sent)
    requires Once(sent) && Once(multiset(p.frames)) && Numbered(p) && forall t :: t in sent ==> t.pn != p.pktNum
    ensures Once(sent + multiset(p.frames))
  {
    forall t | t in sent + multiset(p.frames)
      ensures (sent + multiset(p.frames))[t] == 1
    {
      assert t in multiset(p.frames) ==> t in p.frames;
    }
  }

  lemma JoinedLogged(groups: map<nat, Group>, p: Sent, log: set<(nat, nat)>)
    requires Logged(groups, log)
    ensures Logged(Joined(groups, p), log)
  {
  }

  lemma KeptHeld(s: Space, t: Space)
    requires FramesKept(s, t)
    ensures Held(t) == Held(s)
  {
  }

  lemma DetectHeld(r: Rec, e: nat, now: int, delay: int, f: nat)
    requires Valid(r) && e < EPOCHS && f < EPOCHS
    ensures var t := Detect(r, e, now, delay);
            Held(t.spaces[f]) + (if f == e then SilentIn(r, e, now, delay) else multiset{}) == Held(r.spaces[f])
  {
    DetectKeeps(r, e, now, delay);
    var t := Detect(r, e, now, delay);
    if f == e {
      Regroup(FramesOf(t.spaces[e].sent), multiset(t.spaces[e].acked), multiset(t.spaces[e].lost),
              FramesOf(r.spaces[e].sent), multiset(r.spaces[e].lost), SilentIn(r, e, now, delay));
    }
  }

  lemma Regroup(a: multiset<Tagged>, b: multiset<Tagged>, c: multiset<Tagged>, d: multiset<Tagged>, f: multiset<Tagged>,
                gone: multiset<Tagged>)
    requires a + c + gone == d + f
    ensures a + b + c + gone == d + b + f
  {
    assert a + b + c + gone == (a + c + gone) + b;
    assert d + b + f == (d + f) + b;
  }

  /** Frames that leave a space are added to the discarded ones. */
  lemma Rebalance(sent: multiset<Tagged>, held: multiset<Tagged>, left: multiset<Tagged>, gone: multiset<Tagged>,
                  acked: multiset<Tagged>, lost: multiset<Tagged>, discarded: multiset<Tagged>)
    requires sent == held + acked + lost + discarded && left + gone == held
    ensures sent == left + acked + lost + (discarded + gone)
  {
  }

  /** The state between the walk over the ranges and loss detection. */
  lemma AckWalked(b: Book, ranges: seq<Range>, e: nat, now: int, delay: int, b': Book) returns (u: Rec, newly: bool)
    requires Inv(b) && Does(b, AckFrame(ranges, e, now, delay), b')
    requires ranges != [] && ranges[|ranges| - 1].end > 0 && AckReceived(b.rec, ranges, e, now, delay).Ok?
    ensures Valid(u) && Logged(u.groups, b'.ackLog)
    ensures forall f :: 0 <= f < EPOCHS ==> Held(u.spaces[f]) == Held(b.rec.spaces[f])
    ensures b'.sent == b.sent && b'.acked == b.acked && b'.lost == b.lost
    ensures b'.rec == if newly then Detect(u, e, now, delay) else u
    ensures b'.discarded == if newly then Add(b.discarded, e, SilentIn(u, e, now, delay)) else b.discarded
  {
    assert ranges[|ranges| - 1] in ranges;
    var start := Noted(b.rec, e, ranges[|ranges| - 1].end - 1);
    var walked := AckWalk(start, Descending(ranges), e);
    u, newly := walked.0, walked.1;
    WalkKeeps(start, Descending(ranges), e, b.ackLog);
    forall f | 0 <= f < EPOCHS
      ensures Held(u.spaces[f]) == Held(b.rec.spaces[f])
    {
      KeptHeld(start.spaces[f], u.spaces[f]);
    }
  }

  lemma AckKeeps(b: Book, ranges: seq<Range>, e: nat, now: int, delay: int, b': Book)
    requires Inv(b) && Does(b, AckFrame(ranges, e, now, delay), b')
    ensures Inv(b')
  {
    assert ranges[|ranges| - 1] in ranges;
    if AckReceived(b.rec, ranges, e, now, delay).Ok? {
      var u, newly := AckWalked(b, ranges, e, now, delay, b');
      if newly {
        DetectBalanced(u, e, now, delay, b'.ackLog);
      }
      forall f | 0 <= f < EPOCHS
        ensures Balanced(b', f)
      {
        assert Balanced(b, f);
        SpaceBalanced(b, u, newly, e, now, delay, b', f);
      }
    }
  }

  /** The balance of one space across an acknowledgement: first the walk moves frames to the
      acknowledged ones, then loss detection may discard some. */
  lemma SpaceBalanced(b: Book, u: Rec, newly: bool, e: nat, now: int, delay: int, b': Book, f: nat)
    requires Shape(b) && Shape(b') && Valid(u) && e < EPOCHS && f < EPOCHS && Balanced(b, f)
    requires Held(u.spaces[f]) == Held(b.rec.spaces[f])
    requires b'.sent == b.sent && b'.acked == b.acked && b'.lost == b.lost
    requires b'.rec == if newly then Detect(u, e, now, delay) else u
    requires b'.discarded == if newly then Add(b.discarded, e, SilentIn(u, e, now, delay)) else b.discarded
    ensures Balanced(b', f)
  {
    if newly {
      DetectHeld(u, e, now, delay, f);
      if f == e {
        Rebalance(b.sent[f], Held(u.spaces[f]), Held(b'.rec.spaces[f]), SilentIn(u, e, now, delay),
                  b.acked[f], b.lost[f], b.discarded[f]);
      }
    }
  }

  lemma TimeoutKeeps(b: Book, completed: bool, now: int, delay: int, b': Book)
    requires Inv(b) && Does(b, Timeout(completed, now, delay), b')
    ensures Inv(b')
  {
    var (due, e) := Earliest(LossTimes(b.rec), completed);
    var probe := Earliest(ElicitingTimes(b.rec), completed).1;
    if due.Some? {
      DetectBalanced(b.rec, e, now, delay, b.ackLog);
    }
    hide Earliest, Detect;
    forall f | 0 <= f < EPOCHS
      ensures Balanced(b', f)
    {
      assert Balanced(b, f);
      TimeoutBalanced(b, due.Some?, e, probe, now, delay, b', f);
    }
  }

  lemma TimeoutBalanced(b: Book, due: bool, e: nat, probe: nat, now: int, delay: int, b': Book, f: nat)
    requires Shape(b) && Shape(b') && e < EPOCHS && probe < EPOCHS && f < EPOCHS && Balanced(b, f)
    requires b'.rec == if due then Detect(b.rec, e, now, delay)
                       else WithSpace(b.rec, probe, b.rec.spaces[probe].(probes := 2))
    requires b'.sent == b.sent && b'.acked == b.acked && b'.lost == b.lost
    requires b'.discarded == if due then Add(b.discarded, e, SilentIn(b.rec, e, now, delay)) else b.discarded
    ensures Balanced(b', f)
  {
    if due {
      DetectHeld(b.rec, e, now, delay, f);
      if f == e {
        Rebalance(b.sent[f], Held(b.rec.spaces[f]), Held(b'.rec.spaces[f]), SilentIn(b.rec, e, now, delay),
                  b.acked[f], b.lost[f], b.discarded[f]);
      }
    } else {
      assert Held(b'.rec.spaces[f]) == Held(b.rec.spaces[f]);
    }
  }

  lemma DropKeeps(b: Book, e: nat, b': Book)
    requires Inv(b) && Does(b, DropEpoch(e), b')
    ensures Inv(b')
  {
    hide Logged, Once, AllOrdered, Grouped, InFlight;
    forall f | 0 <= f < EPOCHS
      ensures Balanced(b', f)
    {
      assert Balanced(b, f);
    }
  }

  /** Handing the acknowledged or the lost frames to the connection. */
  lemma DrainKeeps(b: Book, ev: Event, b': Book)
    requires Inv(b) && Does(b, ev, b') && (ev.DrainAcked? || ev.DrainLost?)
    ensures Inv(b')
  {
    hide Logged, Once, AllOrdered, Grouped, InFlight;
    DrainValid(b, ev, b');
    forall f | 0 <= f < EPOCHS
      ensures Balanced(b', f)
    {
      assert Balanced(b, f);
    }
  }

  lemma DrainValid(b: Book, ev: Event, b': Book)
    requires Inv(b) && Does(b, ev, b') && (ev.DrainAcked? || ev.DrainLost?)
    ensures Valid(b'.rec)
  {
    hide Logged, Once, Balanced;
  }

  lemma StepKeeps(b: Book, ev: Event, b': Book)
    requires Inv(b) && Does(b, ev, b')
    ensures Inv(b')
  {
    hide Inv, Does;
    match ev
    case Send(p, e, now) => SendKeeps(b, p, e, now, b');
    case AckFrame(ranges, e, now, delay) => AckKeeps(b, ranges, e, now, delay, b');
    case Timeout(completed, now, delay) => TimeoutKeeps(b, completed, now, delay, b');
    case DropEpoch(e) => DropKeeps(b, e, b');
    case _ => DrainKeeps(b, ev, b');
  }

  // ---------- whole runs ----------

  ghost predicate Run(bs: seq<Book>, evs: seq<Event>) {
    && |bs| == |evs| + 1 && bs[0] == StartBook()
    && forall k :: 0 <= k < |evs| ==> Shape(bs[k]) && Does(bs[k], evs[k], bs[k + 1])
  }

  lemma StartInv()
    ensures Inv(StartBook())
  {
  }

  lemma {:induction false} RunInv(bs: seq<Book>, evs: seq<Event>, k: nat)
    requires Run(bs, evs) && k < |bs|
    ensures Inv(bs[k])
  {
    hide Inv, Does, StartBook;
    StartInv();
    if k > 0 {
      RunInv(bs, evs, k - 1);
      assert Does(bs[k - 1], evs[k - 1], bs[k]);
      StepKeeps(bs[k - 1], evs[k - 1], bs[k]);
    }
  }

  /** The frame ledger: over every interleaving of sending, acknowledgements, FEC credit,
      losses and dropped epochs, each frame sent is in exactly one place: with a packet
      outstanding, acknowledged, lost, or discarded. */
  lemma FrameLedger(bs: seq<Book>, evs: seq<Event>, k: nat, e: nat)
    requires Run(bs, evs) && k < |bs| && e < EPOCHS
    ensures Shape(bs[k])
    ensures var b, s := bs[k], bs[k].rec.spaces[e];
            b.sent[e] == FramesOf(s.sent) + multiset(s.acked) + multiset(s.lost)
                         + b.acked[e] + b.lost[e] + b.discarded[e]
  {
    RunInv(bs, evs, k);
    assert Balanced(bs[k], e);
  }

  /** So each frame of each packet is in exactly one of six places, in one copy. */
  lemma FrameInOnePlace(bs: seq<Book>, evs: seq<Event>, k: nat, e: nat, t: Tagged)
    requires Run(bs, evs) && k < |bs| && e < EPOCHS
    ensures Shape(bs[k])
    ensures var b, s := bs[k], bs[k].rec.spaces[e];
            t in b.sent[e] ==>
              FramesOf(s.sent)[t] + multiset(s.acked)[t] + multiset(s.lost)[t]
              + b.acked[e][t] + b.lost[e][t] + b.discarded[e][t] == 1
  {
    FrameLedger(bs, evs, k, e);
    RunInv(bs, evs, k);
    assert Once(bs[k].sent[e]);
  }

  /** A frame of a packet is never both acknowledged and lost, and so not sent again after it
      was acknowledged, nor acknowledged twice. */
  lemma NotAckedAndLost(bs: seq<Book>, evs: seq<Event>, k: nat, e: nat, t: Tagged)
    requires Run(bs, evs) && k < |bs| && e < EPOCHS
    ensures Shape(bs[k])
    ensures var b, s := bs[k], bs[k].rec.spaces[e];
            t in b.acked[e] || t in s.acked ==>
              && t !in b.lost[e] && t !in s.lost && t !in FramesOf(s.sent)
              && b.acked[e][t] + multiset(s.acked)[t] == 1
  {
    FrameLedger(bs, evs, k, e);
    FrameInOnePlace(bs, evs, k, e, t);
  }

  /** The bytes reported in flight are those of the outstanding application packets that
      count, and every group looked up is known. */
  lemma BytesInFlightExact(bs: seq<Book>, evs: seq<Event>, k: nat)
    requires Run(bs, evs) && k < |bs|
    ensures Shape(bs[k])
    ensures bs[k].rec.bytesInFlight == InFlight(bs[k].rec.spaces[APPLICATION].sent)
    ensures forall e, p :: 0 <= e < EPOCHS && p in bs[k].rec.spaces[e].sent && p.fec.groupId != 0 ==>
              p.fec.groupId in bs[k].rec.groups
  {
    RunInv(bs, evs, k);
  }
}
