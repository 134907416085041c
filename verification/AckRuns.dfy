/** What loss recovery remembers of the packets it sent and of the ACK frames it accepted, over
    whole runs (src/recovery.rs): the largest numbers, the time of the last packet that wants an
    answer, and what one ACK frame or one timeout does to a packet number space. */
module AckRuns {
  import opened Prelude
  import opened RangeSets
  import opened FrameTypes
  import opened RecoverySpec
  import opened RecoveryRuns

  // ---------- sending ----------

  /** What sending changes: the packet is outstanding in its space, all others are as before. */
  lemma SendOutcome(r: Rec, p: Sent, e: nat, now: int)
    requires Valid(r) && Sendable(r, p, e)
    ensures var s, t := r.spaces[e], PacketSent(r, p, e, now).spaces[e];
            && (forall q :: q in t.sent <==> q == p || q in s.sent)
            && t.acked == s.acked && t.lost == s.lost && t.lossTime == s.lossTime && t.probes == s.probes
            && t.largestAcked == s.largestAcked
    ensures forall f :: 0 <= f < EPOCHS && f != e ==> PacketSent(r, p, e, now).spaces[f] == r.spaces[f]
  {
    PlaceOrdered(r.spaces[e].sent, p);
  }

  // ---------- what acknowledging and losing packets leaves alone ----------

  /** Only outstanding packets and acknowledged frames differ. */
  ghost predicate OnlyAcked(a: Space, b: Space) {
    b == a.(sent := b.sent, acked := b.acked)
  }

  lemma PacketAckedOnly(r: Rec, pn: nat, e: nat)
    requires Valid(r) && e < EPOCHS
    ensures forall f :: 0 <= f < EPOCHS ==> OnlyAcked(r.spaces[f], PacketAcked(r, pn, e).0.spaces[f])
    ensures PacketAcked(r, pn, e).1 <==> Find(r.spaces[e].sent, pn).Some?
    ensures Find(r.spaces[e].sent, pn).None? ==> PacketAcked(r, pn, e).0 == r
  {
    if Find(r.spaces[e].sent, pn).Some? {
      var i := Find(r.spaces[e].sent, pn).value;
      var p := r.spaces[e].sent[i];
      assert p in r.spaces[e].sent;
      if p.fec.groupId != 0 {
        var r1 := WithSpace(r, e, TakenOut(r.spaces[e], i));
        var g := GroupAcked(r1.groups[p.fec.groupId], pn);
        if RecoveredPns(g).Some? {
          CreditKeeps(r1.spaces[APPLICATION], RecoveredPns(g).value);
        }
      }
    }
    hide Valid, FramesKept, Credit;
  }

  /** Acknowledging a list of numbers changes nothing else, tells whether one of them was
      outstanding, and changes nothing at all if none was. */
  lemma {:induction false} AckAllOnly(r: Rec, pns: seq<nat>, e: nat)
    requires Valid(r) && e < EPOCHS
    ensures var (u, newly) := AckAll(r, pns, e);
            && (forall f :: 0 <= f < EPOCHS ==> OnlyAcked(r.spaces[f], u.spaces[f]))
            && (newly <==> exists pn :: pn in pns && Find(r.spaces[e].sent, pn).Some?)
            && (!newly ==> u == r)
    decreases |pns|
  {
    if pns != [] {
      PacketAckedOnly(r, pns[0], e);
      AckedKeeps(r, pns[0], e);
      AckAllOnly(PacketAcked(r, pns[0], e).0, pns[1..], e);
      hide PacketAcked, Valid, FramesKept;
      assert forall pn :: pn in pns <==> pn == pns[0] || pn in pns[1..];
    }
  }

  /** The packets of `b` are packets of `a`, with their frames or without. */
  ghost predicate Thinned(a: seq<Sent>, b: seq<Sent>) {
    forall q :: q in b ==> exists p :: p in a && (q == p || q == p.(frames := []))
  }

  lemma ThinnedTwice(a: seq<Sent>, b: seq<Sent>, c: seq<Sent>)
    requires Thinned(a, b) && Thinned(b, c)
    ensures Thinned(a, c)
  {
  }

  lemma CreditThins(s: Space, pns: seq<nat>)
    ensures Thinned(s.sent, Credit(s, pns).sent)
  {
    CreditOnly(s, pns);
    var a, b := s.sent, Credit(s, pns).sent;
    forall q | q in b
      ensures exists p :: p in a && (q == p || q == p.(frames := []))
    {
      var i :| 0 <= i < |b| && b[i] == q;
      assert a[i] in a;
    }
  }

  lemma PacketAckedThins(r: Rec, pn: nat, e: nat, f: nat)
    requires Valid(r) && e < EPOCHS && f < EPOCHS
    ensures Thinned(r.spaces[f].sent, PacketAcked(r, pn, e).0.spaces[f].sent)
  {
    if Find(r.spaces[e].sent, pn).Some? {
      var i := Find(r.spaces[e].sent, pn).value;
      var p := r.spaces[e].sent[i];
      assert p in r.spaces[e].sent;
      RemoveOrdered(r.spaces[e].sent, i);
      var r1 := WithSpace(r, e, TakenOut(r.spaces[e], i));
      assert Thinned(r.spaces[f].sent, r1.spaces[f].sent);
      if p.fec.groupId != 0 {
        var g := GroupAcked(r1.groups[p.fec.groupId], pn);
        if RecoveredPns(g).Some? && f == APPLICATION {
          CreditThins(r1.spaces[f], RecoveredPns(g).value);
          ThinnedTwice(r.spaces[f].sent, r1.spaces[f].sent, Credit(r1.spaces[f], RecoveredPns(g).value).sent);
        }
      }
    }
  }

  lemma {:induction false} AckAllThins(r: Rec, pns: seq<nat>, e: nat, f: nat)
    requires Valid(r) && e < EPOCHS && f < EPOCHS
    ensures Thinned(r.spaces[f].sent, AckAll(r, pns, e).0.spaces[f].sent)
    decreases |pns|
  {
    if pns != [] {
      PacketAckedThins(r, pns[0], e, f);
      AckedKeeps(r, pns[0], e);
      var t := PacketAcked(r, pns[0], e).0;
      AckAllThins(t, pns[1..], e, f);
      ThinnedTwice(r.spaces[f].sent, t.spaces[f].sent, AckAll(r, pns, e).0.spaces[f].sent);
    }
  }

  /** Loss detection touches one space, and there the packets, the lost frames and the timer. */
  lemma DetectOnly(r: Rec, e: nat, now: int, delay: int)
    requires Valid(r) && e < EPOCHS
    ensures var t := Detect(r, e, now, delay);
            && t.spaces[e] == r.spaces[e].(sent := t.spaces[e].sent, lost := t.spaces[e].lost,
                                           lossTime := t.spaces[e].lossTime)
            && forall f :: 0 <= f < EPOCHS && f != e ==> t.spaces[f] == r.spaces[f]
  {
    DetectIsLost(r, e, now, delay);
  }

  // ---------- one ACK frame ----------

  /** The numbers an ACK frame lists that are outstanding. */
  ghost predicate NewlyAcked(r: Rec, ranges: seq<Range>, e: nat)
    requires e < |r.spaces|
  {
    exists pn: nat :: Member(ranges, pn) && Find(r.spaces[e].sent, pn).Some?
  }

  lemma MembersBelow(ranges: seq<Range>)
    requires Canonical(ranges) && NonEmpty(ranges) && ranges != []
    ensures ranges[|ranges| - 1].end > 0 && Member(ranges, ranges[|ranges| - 1].end - 1)
    ensures forall x :: Member(ranges, x) ==> x <= ranges[|ranges| - 1].end - 1
  {
    var last := ranges[|ranges| - 1];
    assert last in ranges;
    assert last.Contains(last.end - 1);
  }

  /** The state after the walk over the ranges of a frame that is accepted. */
  lemma WalkOutcome(r: Rec, ranges: seq<Range>, e: nat) returns (u: Rec, newly: bool)
    requires Valid(r) && e < EPOCHS && Canonical(ranges) && NonEmpty(ranges)
    ensures Valid(u) && AckWalk(r, Descending(ranges), e) == (u, newly)
    ensures OnlyAcked(r.spaces[e], u.spaces[e]) && Thinned(r.spaces[e].sent, u.spaces[e].sent)
    ensures newly <==> NewlyAcked(r, ranges, e)
    ensures !newly ==> u == r
    ensures forall pn: nat :: Find(u.spaces[e].sent, pn).Some? <==>
                                Find(r.spaces[e].sent, pn).Some? && !Member(ranges, pn)
  {
    var pns := Descending(ranges);
    DescendingLists(ranges);
    EarlyExitLosesNothing(r, pns, e);
    u, newly := AckAll(r, pns, e).0, AckAll(r, pns, e).1;
    AckAllOnly(r, pns, e);
    AckAllThins(r, pns, e, e);
    forall pn: nat
      ensures Find(u.spaces[e].sent, pn).Some? <==> Find(r.spaces[e].sent, pn).Some? && !Member(ranges, pn)
    {
      AckAllRemoves(r, pns, e, pn);
    }
  }

  /** What an ACK frame that is accepted leaves of the numbers and times of its space. */
  lemma AcceptedKeeps(r: Rec, ranges: seq<Range>, e: nat, now: int, delay: int)
    requires Valid(r) && e < EPOCHS && Canonical(ranges) && NonEmpty(ranges) && ranges != []
    requires ranges[|ranges| - 1].end > 0 && AckReceived(r, ranges, e, now, delay).Ok?
    ensures var s, t := r.spaces[e], AckReceived(r, ranges, e, now, delay).value.spaces[e];
            && t.largestAcked == LargestAcked(s, ranges[|ranges| - 1].end - 1)
            && t.largestSent == s.largestSent && t.lastEliciting == s.lastEliciting && t.probes == s.probes
  {
    var n := Noted(r, e, ranges[|ranges| - 1].end - 1);
    assert OnlyAcked(n.spaces[e], n.spaces[e]);
    var u, newly := WalkOutcome(n, ranges, e);
    hide Valid, Detect, AckWalk, Canonical, Thinned, Find, Descending, NewlyAcked;
    if newly {
      DetectOnly(u, e, now, delay);
    }
  }

  /** An ACK frame is refused exactly when it lists a number above the largest one sent. Otherwise
      the largest acknowledged number is at least every number listed, is one of them or the old
      one, and never falls. */
  lemma LargestAckedOutcome(r: Rec, ranges: seq<Range>, e: nat, now: int, delay: int)
    requires Valid(r) && e < EPOCHS && Canonical(ranges) && NonEmpty(ranges) && ranges != []
    ensures ranges[|ranges| - 1].end > 0
    ensures var out, s := AckReceived(r, ranges, e, now, delay), r.spaces[e];
            && (out.Err? <==> exists x :: Member(ranges, x) && x > s.largestSent)
            && (out.Err? ==> out.error == InvalidPacket)
            && (out.Ok? ==>
                  var t := out.value.spaces[e];
                  && (forall x :: Member(ranges, x) ==> x <= t.largestAcked)
                  && (Member(ranges, t.largestAcked) || (t.largestAcked == s.largestAcked && s.largestAcked != U64_MAX))
                  && (s.largestAcked != U64_MAX ==> s.largestAcked <= t.largestAcked)
                  && t.largestSent == s.largestSent && t.lastEliciting == s.lastEliciting && t.probes == s.probes)
  {
    hide Valid, WalkAndDetect, Noted, Canonical;
    MembersBelow(ranges);
    if AckReceived(r, ranges, e, now, delay).Ok? {
      AcceptedKeeps(r, ranges, e, now, delay);
    }
    hide Member;
  }

  lemma SameFinds(sent: seq<Sent>, pn: nat, i: nat, q: Sent)
    requires Ordered(sent) && Find(sent, pn) == Some(i) && q in sent && q.pktNum == pn
    ensures sent[i] == q
  {
  }

  /** A packet that was kept has its time; so whether it is lost can be told from before. */
  lemma ThinnedFinds(a: seq<Sent>, b: seq<Sent>, pn: nat)
    requires Thinned(a, b) && Ordered(a) && Find(b, pn).Some?
    ensures Find(a, pn).Some? && a[Find(a, pn).value].time == b[Find(b, pn).value].time
  {
    var q := b[Find(b, pn).value];
    assert q in b;
    var p :| p in a && (q == p || q == p.(frames := []));
    FindMember(a, pn);
    SameFinds(a, pn, Find(a, pn).value, p);
  }

  /** Which packets of the space are left by an ACK frame that is accepted: those it does not
      list and, if it lists an outstanding one, that are not lost by time or threshold against
      the new largest acknowledged number. Without a new acknowledgement nothing else changes. */
  lemma AckOutcome(r: Rec, ranges: seq<Range>, e: nat, now: int, delay: int, pn: nat)
    requires Valid(r) && e < EPOCHS && Canonical(ranges) && NonEmpty(ranges) && ranges != []
    requires ranges[|ranges| - 1].end > 0 && AckReceived(r, ranges, e, now, delay).Ok?
    ensures var t, at := AckReceived(r, ranges, e, now, delay).value, Find(r.spaces[e].sent, pn);
            && (Find(t.spaces[e].sent, pn).Some? <==>
                  && at.Some? && !Member(ranges, pn)
                  && var largest := t.spaces[e].largestAcked;
                     NewlyAcked(r, ranges, e) && pn <= largest ==>
                       largest < pn + 3 && now - delay < r.spaces[e].sent[at.value].time)
            && (!NewlyAcked(r, ranges, e) ==>
                  t == WithSpace(r, e, r.spaces[e].(largestAcked := t.spaces[e].largestAcked)))
  {
    var n := Noted(r, e, ranges[|ranges| - 1].end - 1);
    var t := AckReceived(r, ranges, e, now, delay).value;
    var u, newly := WalkOutcome(n, ranges, e);
    assert Find(n.spaces[e].sent, pn) == Find(r.spaces[e].sent, pn);
    assert NewlyAcked(n, ranges, e) <==> NewlyAcked(r, ranges, e);
    if newly {
      DetectOutcome(u, e, now, delay);
      DetectOnly(u, e, now, delay);
      assert t == Detect(u, e, now, delay);
      AfterDetection(r.spaces[e].sent, u.spaces[e], t.spaces[e], pn, now - delay);
    }
  }

  lemma AfterDetection(before: seq<Sent>, u: Space, t: Space, pn: nat, limit: int)
    requires Ordered(before) && Ordered(u.sent) && Thinned(before, u.sent) && t.largestAcked == u.largestAcked
    requires forall p :: p in t.sent <==>
               p in u.sent && (p.pktNum <= u.largestAcked ==> u.largestAcked < p.pktNum + 3 && limit < p.time)
    ensures Find(t.sent, pn).Some? <==>
              && Find(u.sent, pn).Some? && Find(before, pn).Some?
              && (pn <= t.largestAcked ==>
                    t.largestAcked < pn + 3 && limit < before[Find(before, pn).value].time)
  {
    FindMember(t.sent, pn);
    if Find(u.sent, pn).Some? {
      ThinnedFinds(before, u.sent, pn);
      var q := u.sent[Find(u.sent, pn).value];
      assert q in u.sent;
      if Find(t.sent, pn).Some? {
        var p := t.sent[Find(t.sent, pn).value];
        assert p in t.sent;
        SameFinds(u.sent, pn, Find(u.sent, pn).value, p);
      }
    } else {
      FindMember(u.sent, pn);
    }
  }

  // ---------- timeouts and dropped spaces ----------

  /** The space whose time is the earliest, the lowest one among equals; the application space
      counts only once the handshake is complete. */
  ghost predicate FirstDue(times: seq<Option<int>>, completed: bool, e: nat)
    requires |times| == EPOCHS
  {
    && e < EPOCHS && times[e].Some? && (e == 2 ==> completed)
    && forall f :: 0 <= f < EPOCHS && times[f].Some? && (f == 2 ==> completed) ==>
         times[e].value <= times[f].value && (f < e ==> times[e].value < times[f].value)
  }

  ghost predicate NoneDue(times: seq<Option<int>>, completed: bool)
    requires |times| == EPOCHS
  {
    forall e :: 0 <= e < EPOCHS ==> !FirstDue(times, completed, e)
  }

  lemma FirstDueIff(times: seq<Option<int>>, completed: bool)
    requires |times| == EPOCHS
    ensures var (due, e) := Earliest(times, completed);
            && (due.Some? <==> !NoneDue(times, completed))
            && (if due.Some? then FirstDue(times, completed, e) else e == 0)
            && forall f :: FirstDue(times, completed, f) ==> f == e
  {
    var (due, e) := Earliest(times, completed);
    if due.Some? {
      assert FirstDue(times, completed, e);
    }
  }

  /** A timeout looks for lost packets in the space whose loss timer is due first. If none runs,
      it asks for two probes, in the space where the oldest packet waits for an answer, and
      changes nothing else. */
  lemma TimeoutOutcome(r: Rec, completed: bool, now: int, delay: int, e: nat)
    requires Valid(r) && e < EPOCHS
    ensures FirstDue(LossTimes(r), completed, e) ==> TimedOut(r, completed, now, delay) == Detect(r, e, now, delay)
    ensures NoneDue(LossTimes(r), completed) && FirstDue(ElicitingTimes(r), completed, e) ==>
              TimedOut(r, completed, now, delay) == WithSpace(r, e, r.spaces[e].(probes := 2))
    ensures NoneDue(LossTimes(r), completed) && NoneDue(ElicitingTimes(r), completed) ==>
              TimedOut(r, completed, now, delay) == WithSpace(r, 0, r.spaces[0].(probes := 2))
    ensures forall f :: 0 <= f < EPOCHS ==>
              LossTimes(r)[f] == r.spaces[f].lossTime && ElicitingTimes(r)[f] == r.spaces[f].lastEliciting
  {
    FirstDueIff(LossTimes(r), completed);
    FirstDueIff(ElicitingTimes(r), completed);
    hide Valid, Detect;
  }

  /** Dropping a space leaves it as new, but for the largest numbers; it takes its bytes out of
      flight. */
  lemma DropOutcome(r: Rec, e: nat)
    requires Valid(r) && e < EPOCHS
    ensures var t := DropSpace(r, e);
            && t.spaces == r.spaces[e := EmptySpace().(largestSent := r.spaces[e].largestSent,
                                                       largestAcked := r.spaces[e].largestAcked)]
            && t.groups == r.groups && t.lostCount == r.lostCount
            && t.bytesInFlight == if e == APPLICATION then 0 else r.bytesInFlight
  {
  }

  // ---------- over whole runs ----------

  ghost predicate Sends(ev: Event, e: nat, pn: nat) {
    ev.Send? && ev.e == e && ev.pkt.pktNum == pn
  }

  /** An ACK frame for space `e` that is not refused. */
  ghost predicate Accepted(b: Book, ev: Event, e: nat) {
    && Shape(b) && e < EPOCHS && ev.AckFrame? && ev.e == e
    && ev.ranges != [] && ev.ranges[|ev.ranges| - 1].end > 0
    && AckReceived(b.rec, ev.ranges, e, ev.now, ev.delay).Ok?
  }

  /** A packet that counts as in flight and wants an acknowledgement. */
  ghost predicate Elicits(ev: Event, e: nat) {
    ev.Send? && ev.e == e && ev.pkt.inFlight && ev.pkt.ackEliciting
  }

  /** What a step remembers: the largest numbers and the time of the last packet that wants an
      answer, for each space. */
  lemma StepRemembers(b: Book, ev: Event, b': Book, e: nat)
    requires Inv(b) && Does(b, ev, b') && e < EPOCHS
    ensures |b'.rec.spaces| == EPOCHS
    ensures var s, t := b.rec.spaces[e], b'.rec.spaces[e];
            && t.largestSent == (if ev.Send? && ev.e == e then Max(s.largestSent, ev.pkt.pktNum) else s.largestSent)
            && t.lastEliciting == (if Elicits(ev, e) then Some(ev.now)
                                   else if ev == DropEpoch(e) then None else s.lastEliciting)
            && (if Accepted(b, ev, e) then
                  && (forall x :: Member(ev.ranges, x) ==> x <= t.largestAcked)
                  && (Member(ev.ranges, t.largestAcked) || (t.largestAcked == s.largestAcked && s.largestAcked != U64_MAX))
                  && (s.largestAcked != U64_MAX ==> s.largestAcked <= t.largestAcked)
                else t.largestAcked == s.largestAcked)
  {
    match ev
    case AckFrame(ranges, f, now, delay) =>
      LargestAckedOutcome(b.rec, ranges, f, now, delay);
      if AckReceived(b.rec, ranges, f, now, delay).Ok? && f != e {
        AckElsewhere(b.rec, ranges, f, now, delay, e);
      }
    case Timeout(completed, now, delay) =>
      var (due, f) := Earliest(LossTimes(b.rec), completed);
      if due.Some? {
        DetectOnly(b.rec, f, now, delay);
      }
    case _ =>
  }

  /** An ACK frame of another space changes frames only. */
  lemma AckElsewhere(r: Rec, ranges: seq<Range>, f: nat, now: int, delay: int, e: nat)
    requires Valid(r) && f < EPOCHS && e < EPOCHS && e != f && Canonical(ranges) && NonEmpty(ranges) && ranges != []
    requires ranges[|ranges| - 1].end > 0 && AckReceived(r, ranges, f, now, delay).Ok?
    ensures OnlyAcked(r.spaces[e], AckReceived(r, ranges, f, now, delay).value.spaces[e])
  {
    var n := Noted(r, f, ranges[|ranges| - 1].end - 1);
    DescendingLists(ranges);
    EarlyExitLosesNothing(n, Descending(ranges), f);
    AckAllOnly(n, Descending(ranges), f);
    var (u, newly) := AckWalk(n, Descending(ranges), f);
    if newly {
      DetectOnly(u, f, now, delay);
    }
  }

  lemma StepOfRun(bs: seq<Book>, evs: seq<Event>, k: nat)
    requires Run(bs, evs) && 0 < k < |bs|
    ensures Inv(bs[k - 1]) && Does(bs[k - 1], evs[k - 1], bs[k])
  {
    hide Inv, Does;
    RunInv(bs, evs, k - 1);
  }

  /** In every run the number that ACK frames are checked against is the largest one sent in the
      space, or zero. */
  lemma {:induction false} LargestSentIs(bs: seq<Book>, evs: seq<Event>, k: nat, e: nat)
    requires Run(bs, evs) && k < |bs| && e < EPOCHS
    ensures |bs[k].rec.spaces| == EPOCHS
    ensures var n := bs[k].rec.spaces[e].largestSent;
            && (forall j, pn: nat :: 0 <= j < k && Sends(evs[j], e, pn) ==> pn <= n)
            && (n == 0 || exists j :: 0 <= j < k && Sends(evs[j], e, n))
  {
    hide Inv, Does;
    if k > 0 {
      LargestSentIs(bs, evs, k - 1, e);
      StepOfRun(bs, evs, k);
      StepRemembers(bs[k - 1], evs[k - 1], bs[k], e);
      if evs[k - 1].Send? && evs[k - 1].e == e {
        assert Sends(evs[k - 1], e, evs[k - 1].pkt.pktNum);
      }
    }
  }

  /** So an ACK frame is refused exactly when it lists a number other than zero that is above
      every number sent in its space. */
  lemma RefusedIff(bs: seq<Book>, evs: seq<Event>, k: nat, ranges: seq<Range>, e: nat, now: int, delay: int)
    requires Run(bs, evs) && k < |bs| && e < EPOCHS && Canonical(ranges) && NonEmpty(ranges) && ranges != []
    ensures Valid(bs[k].rec) && ranges[|ranges| - 1].end > 0
    ensures AckReceived(bs[k].rec, ranges, e, now, delay).Err? <==>
              exists x: nat :: x > 0 && Member(ranges, x) && forall j, pn: nat :: 0 <= j < k && Sends(evs[j], e, pn) ==> pn < x
  {
    hide Does;
    RunInv(bs, evs, k);
    MembersBelow(ranges);
    LargestSentIs(bs, evs, k, e);
    LargestAckedOutcome(bs[k].rec, ranges, e, now, delay);
  }

  /** Zero is taken for sent: before the first packet of a space an acknowledgement of packet 0
      is accepted. */
  lemma AckBeforeSending(e: nat, now: int, delay: int)
    requires e < EPOCHS
    ensures Canonical([Range(0, 1)]) && NonEmpty([Range(0, 1)])
    ensures var out := AckReceived(Start(), [Range(0, 1)], e, now, delay);
            out.Ok? && Start().spaces[e].sent == [] && out.value.spaces[e].largestAcked == 0
  {
    LargestAckedOutcome(Start(), [Range(0, 1)], e, now, delay);
    assert Range(0, 1).Contains(0) && Member([Range(0, 1)], 0);
    assert forall x :: Member([Range(0, 1)], x) ==> x == 0;
  }

  /** In every run the largest acknowledged number of a space is the largest in all ACK frames
      for it that were accepted, and unset before the first of them. */
  lemma {:induction false} LargestAckedIs(bs: seq<Book>, evs: seq<Event>, k: nat, e: nat)
    requires Run(bs, evs) && k < |bs| && e < EPOCHS
    requires forall j :: 0 <= j < k && evs[j].Send? ==> evs[j].pkt.pktNum < U64_MAX
    ensures |bs[k].rec.spaces| == EPOCHS
    ensures var n := bs[k].rec.spaces[e].largestAcked;
            && (forall j, x :: 0 <= j < k && Accepted(bs[j], evs[j], e) && Member(evs[j].ranges, x) ==> x <= n)
            && (n == U64_MAX || exists j :: 0 <= j < k && Accepted(bs[j], evs[j], e) && Member(evs[j].ranges, n))
            && (n == U64_MAX <==> forall j :: 0 <= j < k ==> !Accepted(bs[j], evs[j], e))
  {
    hide Inv, Does, Accepted;
    if k > 0 {
      LargestAckedIs(bs, evs, k - 1, e);
      StepOfRun(bs, evs, k);
      StepRemembers(bs[k - 1], evs[k - 1], bs[k], e);
      if Accepted(bs[k - 1], evs[k - 1], e) {
        AcceptedBelow(bs, evs, k, e);
      }
    }
  }

  lemma AcceptedBelow(bs: seq<Book>, evs: seq<Event>, k: nat, e: nat)
    requires Run(bs, evs) && 0 < k < |bs| && e < EPOCHS && Accepted(bs[k - 1], evs[k - 1], e)
    requires forall j :: 0 <= j < k && evs[j].Send? ==> evs[j].pkt.pktNum < U64_MAX
    ensures var ranges := evs[k - 1].ranges;
            (forall x :: Member(ranges, x) ==> x < U64_MAX) && exists x: nat :: Member(ranges, x)
  {
    StepOfRun(bs, evs, k);
    var ranges := evs[k - 1].ranges;
    MembersBelow(ranges);
    LargestSentIs(bs, evs, k - 1, e);
  }

  /** Packet `j` is the last one in the space that wants an answer, and the space was not dropped
      since. */
  ghost predicate Awaited(evs: seq<Event>, k: nat, e: nat, j: nat)
    requires k <= |evs|
  {
    j < k && Elicits(evs[j], e) && forall i :: j < i < k ==> !Elicits(evs[i], e) && evs[i] != DropEpoch(e)
  }

  lemma AwaitedStep(evs: seq<Event>, k: nat, e: nat, j: nat)
    requires 0 < k <= |evs|
    ensures Awaited(evs, k, e, j) <==>
              if j == k - 1 then Elicits(evs[j], e)
              else Awaited(evs, k - 1, e, j) && !Elicits(evs[k - 1], e) && evs[k - 1] != DropEpoch(e)
    ensures Awaited(evs, k - 1, e, j) ==> j != k - 1
  {
  }

  /** `at` is the time at which the packet that is awaited was sent, if there is one. */
  ghost predicate AwaitedSince(evs: seq<Event>, k: nat, e: nat, at: Option<int>)
    requires k <= |evs|
  {
    && (at.Some? <==> exists j: nat :: Awaited(evs, k, e, j))
    && forall j: nat :: Awaited(evs, k, e, j) ==> at == Some(evs[j].now)
  }

  lemma AwaitedMoves(evs: seq<Event>, k: nat, e: nat, before: Option<int>, after: Option<int>)
    requires 0 < k <= |evs| && AwaitedSince(evs, k - 1, e, before)
    requires after == if Elicits(evs[k - 1], e) then Some(evs[k - 1].now)
                      else if evs[k - 1] == DropEpoch(e) then None else before
    ensures AwaitedSince(evs, k, e, after)
  {
    hide Awaited, Elicits;
    var ev := evs[k - 1];
    forall j: nat
      ensures Awaited(evs, k, e, j) <==>
                if j == k - 1 then Elicits(ev, e)
                else Awaited(evs, k - 1, e, j) && !Elicits(ev, e) && ev != DropEpoch(e)
      ensures Awaited(evs, k - 1, e, j) ==> j != k - 1
    {
      AwaitedStep(evs, k, e, j);
    }
    Drops(ev, e);
    if Elicits(ev, e) {
      assert Awaited(evs, k, e, k - 1);
    } else if ev != DropEpoch(e) && before.Some? {
      var j: nat :| Awaited(evs, k - 1, e, j);
      assert Awaited(evs, k, e, j);
    }
  }

  /** In every run the time kept for probes is that of the last packet in the space that counts
      as in flight and wants an answer, if one was sent since the space was last dropped. */
  lemma {:induction false} LastElicitingIs(bs: seq<Book>, evs: seq<Event>, k: nat, e: nat)
    requires Run(bs, evs) && k < |bs| && e < EPOCHS
    ensures |bs[k].rec.spaces| == EPOCHS && AwaitedSince(evs, k, e, bs[k].rec.spaces[e].lastEliciting)
  {
    hide Inv, Does, Elicits, AwaitedSince;
    if k == 0 {
      NoneAwaited(evs, e);
    } else {
      LastElicitingIs(bs, evs, k - 1, e);
      StepOfRun(bs, evs, k);
      StepRemembers(bs[k - 1], evs[k - 1], bs[k], e);
      AwaitedMoves(evs, k, e, bs[k - 1].rec.spaces[e].lastEliciting, bs[k].rec.spaces[e].lastEliciting);
    }
  }

  lemma NoneAwaited(evs: seq<Event>, e: nat)
    ensures AwaitedSince(evs, 0, e, None)
  {
  }

  lemma Drops(ev: Event, e: nat)
    ensures Elicits(ev, e) ==> ev != DropEpoch(e) && ev.Send?
  {
  }
}
