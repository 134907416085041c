/** Loss recovery as the object the connection updates in place (src/recovery.rs). Its
    methods are proved against `RecoverySpec` and `RecoveryRuns`. */
module Recovery {
  import opened Prelude
  import opened RangeSets
  import opened RecoverySpec
  import opened RecoveryRuns

  /** `get_recovered_pns`. */
  method CollectRecovered(g: Group) returns (r: Option<seq<nat>>)
    ensures r == RecoveredPns(g)
  {
    if |g.acked| >= g.m {
      var pns: seq<nat> := [];
      var k := 0;
      while k < |g.sent|
        invariant 0 <= k <= |g.sent| && pns + Missing(g.sent[k..], g.acked) == Missing(g.sent, g.acked)
      {
        assert g.sent[k..][1..] == g.sent[k + 1..];
        if g.sent[k].pn !in g.acked {
          pns := pns + [g.sent[k].pn];
        }
        k := k + 1;
      }
      assert pns + [] == pns;
      r := Some(pns);
    } else {
      r := None;
    }
  }

  /** The calls of `on_packet_recovered`, one per number. */
  method CreditRecovered(s: Space, pns: seq<nat>) returns (t: Space)
    ensures t == Credit(s, pns)
  {
    t := s;
    var i := 0;
    while i < |pns|
      invariant 0 <= i <= |pns| && Credit(t, pns[i..]) == Credit(s, pns)
    {
      assert pns[i..][1..] == pns[i + 1..];
      var at := Find(t.sent, pns[i]);
      if at.Some? {
        var p := t.sent[at.value];
        t := t.(sent := t.sent[at.value := p.(frames := [])], acked := t.acked + p.frames);
      }
      i := i + 1;
    }
  }

  /** The first loop of `detect_lost_packets`, over the packets up to the largest
      acknowledged one. */
  method ScanLost(sent: seq<Sent>, largest: nat, limit: int, delay: int) returns (lost: seq<nat>, lossTime: Option<int>)
    requires Ordered(sent)
    ensures lost == LostPns(sent, largest, limit) && lossTime == LossTime(sent, largest, limit, delay, None)
  {
    lost, lossTime := [], None;
    var i := 0;
    while i < |sent| && sent[i].pktNum <= largest
      invariant 0 <= i <= |sent|
      invariant lost + LostPns(sent[i..], largest, limit) == LostPns(sent, largest, limit)
      invariant LossTime(sent[i..], largest, limit, delay, lossTime) == LossTime(sent, largest, limit, delay, None)
    {
      assert sent[i..][1..] == sent[i + 1..];
      var p := sent[i];
      if p.time <= limit || largest >= p.pktNum + PACKET_THRESHOLD {
        lost := lost + [p.pktNum];
      } else {
        var due := p.time + delay;
        lossTime := if lossTime.None? then Some(due) else Some(Min(lossTime.value, due));
      }
      i := i + 1;
    }
    BeyondLargest(sent[i..], largest, limit, delay, lossTime);
  }

  lemma {:induction false} BeyondLargest(sent: seq<Sent>, largest: nat, limit: int, delay: int, acc: Option<int>)
    requires Ordered(sent) && (sent != [] ==> sent[0].pktNum > largest)
    ensures LostPns(sent, largest, limit) == [] && LossTime(sent, largest, limit, delay, acc) == acc
  {
    if sent != [] {
      BeyondLargest(sent[1..], largest, limit, delay, acc);
    }
  }

  /** The sum that `drop_unacked_data` gives back. */
  method SumInFlight(sent: seq<Sent>) returns (total: nat)
    ensures total == InFlight(sent)
  {
    total := 0;
    var i := 0;
    while i < |sent|
      invariant 0 <= i <= |sent| && total + InFlight(sent[i..]) == InFlight(sent)
    {
      assert sent[i..][1..] == sent[i + 1..];
      if sent[i].inFlight {
        total := total + sent[i].size;
      }
      i := i + 1;
    }
  }

  class Recovery {
    var spaces: seq<Space>
    var groups: map<nat, Group>
    var bytesInFlight: nat
    var lostCount: nat

    function State(): Rec
      reads this
    {
      Rec(spaces, groups, bytesInFlight, lostCount)
    }

    constructor ()
      ensures Valid(State()) && State() == Start()
    {
      spaces, groups, bytesInFlight, lostCount := [EmptySpace(), EmptySpace(), EmptySpace()], map[], 0, 0;
    }

    method OnPacketSent(pkt: Sent, e: nat, now: int)
      requires Valid(State()) && Sendable(State(), pkt, e)
      modifies this
      ensures Valid(State()) && State() == PacketSent(old(State()), pkt, e, now)
    {
      SentValid(State(), pkt, e, now);
      if pkt.fec.groupId != 0 {
        var g := if pkt.fec.groupId in groups then groups[pkt.fec.groupId] else NewGroup(pkt.fec.m, pkt.fec.n);
        groups := groups[pkt.fec.groupId := g.(sent := Put(g.sent, Slot(pkt.fec.index, pkt.pktNum)))];
      }
      var s := spaces[e];
      s := s.(largestSent := Max(s.largestSent, pkt.pktNum));
      if pkt.inFlight {
        if pkt.ackEliciting {
          s := s.(lastEliciting := Some(now));
        }
        if e >= 2 {
          bytesInFlight := bytesInFlight + pkt.size;
        }
      }
      spaces := spaces[e := s.(sent := Place(s.sent, pkt))];
    }

    /** The FEC part of an acknowledgement. */
    method OnGroupAcked(group: nat, pn: nat)
      requires |spaces| == EPOCHS && group in groups
      modifies `spaces, `groups
      ensures State() == FecAcked(old(State()), group, pn)
    {
      var g := GroupAcked(groups[group], pn);
      groups := groups[group := g];
      var recovered := CollectRecovered(g);
      if recovered.Some? {
        var t := CreditRecovered(spaces[APPLICATION], recovered.value);
        spaces := spaces[APPLICATION := t];
      }
    }

    method TakeOut(i: nat, e: nat)
      requires Valid(State()) && e < EPOCHS && i < |spaces[e].sent|
      modifies `spaces
      ensures State() == WithSpace(old(State()), e, TakenOut(old(spaces[e]), i))
    {
      var s := spaces[e];
      spaces := spaces[e := s.(sent := Remove(s.sent, i), acked := s.acked + s.sent[i].frames)];
    }

    /** The group lookup never fails, and the unchecked subtraction never underflows. */
    method OnPacketAcked(pn: nat, e: nat) returns (newly: bool)
      requires Valid(State()) && e < EPOCHS
      modifies this
      ensures Valid(State()) && (State(), newly) == PacketAcked(old(State()), pn, e)
    {
      ghost var before := State();
      AckedKeeps(before, pn, e);
      var s := spaces[e];
      var at := Find(s.sent, pn);
      if at.None? {
        return false;
      }
      var i := at.value;
      var p := s.sent[i];
      assert p in s.sent;
      InFlightBound(s.sent, i);
      TakeOut(i, e);
      ghost var out := State();
      if p.fec.groupId != 0 {
        OnGroupAcked(p.fec.groupId, pn);
      }
      assert State() == if p.fec.groupId == 0 then out else FecAcked(out, p.fec.groupId, pn);
      if p.inFlight && e >= 2 {
        bytesInFlight := bytesInFlight - p.size;
      }
      assert State() == PacketAcked(before, pn, e).0;
      newly := true;
    }

    /** `on_ack_received`, with the loss delay and the clock as parameters. */
    method OnAckReceived(ranges: seq<Range>, e: nat, now: int, delay: int) returns (r: Result<()>)
      requires Valid(State()) && e < EPOCHS && Canonical(ranges) && NonEmpty(ranges) && ranges != []
      modifies this
      ensures Valid(State())
      ensures ranges[|ranges| - 1].end > 0
      ensures match AckReceived(old(State()), ranges, e, now, delay)
              case Err(error) => r == Err(error) && State() == old(State())
              case Ok(t) => r == Ok(()) && State() == t
    {
      assert |spaces| == EPOCHS;
      hide Valid, Canonical, Noted, WalkAndDetect, Descending;
      ghost var before := State();
      assert ranges[|ranges| - 1] in ranges;
      var largest := ranges[|ranges| - 1].end - 1;
      if largest > spaces[e].largestSent {
        return Err(InvalidPacket);
      }
      NoteLargest(largest, e);
      AckAndDetect(Descending(ranges), e, now, delay);
      assert Ok(State()) == AckReceived(before, ranges, e, now, delay);
      r := Ok(());
    }

    method NoteLargest(largest: nat, e: nat)
      requires Valid(State()) && e < EPOCHS
      modifies `spaces
      ensures State() == Noted(old(State()), e, largest)
    {
      spaces := spaces[e := spaces[e].(largestAcked := LargestAcked(spaces[e], largest))];
    }

    method AckAndDetect(pns: seq<nat>, e: nat, now: int, delay: int)
      requires Valid(State()) && e < EPOCHS
      modifies this
      ensures Valid(State()) && State() == WalkAndDetect(old(State()), pns, e, now, delay)
    {
      var newly := Walk(pns, e);
      if newly {
        DetectLostPackets(e, now, delay);
      }
    }

    /** The loop over the acknowledged numbers, largest first. */
    method Walk(pns: seq<nat>, e: nat) returns (newly: bool)
      requires Valid(State()) && e < EPOCHS
      modifies this
      ensures Valid(State()) && (State(), newly) == AckWalk(old(State()), pns, e)
    {
      newly := false;
      var i := 0;
      while i < |pns|
        invariant 0 <= i <= |pns| && Valid(State())
        invariant var rest := AckWalk(State(), pns[i..], e);
                  AckWalk(old(State()), pns, e) == (rest.0, newly || rest.1)
      {
        assert pns[i..][1..] == pns[i + 1..];
        if spaces[e].sent != [] && pns[i] < spaces[e].sent[0].pktNum {
          return;
        }
        var acked := OnPacketAcked(pns[i], e);
        newly := newly || acked;
        i := i + 1;
      }
    }

    method DetectLostPackets(e: nat, now: int, delay: int)
      requires Valid(State()) && e < EPOCHS
      modifies this
      ensures Valid(State()) && State() == Detect(old(State()), e, now, delay)
    {
      var s := spaces[e];
      var lost, lossTime := ScanLost(s.sent, s.largestAcked, now - delay, delay);
      spaces := spaces[e := s.(lossTime := lossTime)];
      assert State() == Timed(old(State()), e, now, delay);
      OnPacketsLost(lost, e);
    }

    method OnPacketsLost(pns: seq<nat>, e: nat)
      requires Valid(State()) && e < EPOCHS
      modifies this
      ensures Valid(State()) && State() == LoseAll(old(State()), pns, e)
    {
      var i := 0;
      while i < |pns|
        invariant 0 <= i <= |pns| && Valid(State())
        invariant LoseAll(State(), pns[i..], e) == LoseAll(old(State()), pns, e)
      {
        assert pns[i..][1..] == pns[i + 1..];
        OnPacketLost(pns[i], e);
        i := i + 1;
      }
    }

    /** One turn of the loop over the lost packets. */
    method OnPacketLost(pn: nat, e: nat)
      requires Valid(State()) && e < EPOCHS
      modifies this
      ensures Valid(State()) && State() == Lose(old(State()), pn, e)
    {
      ghost var before := State();
      LoseValid(before, pn, e);
      var s := spaces[e];
      var at := Find(s.sent, pn);
      if at.None? {
        return;
      }
      var p := s.sent[at.value];
      assert p in before.spaces[e].sent;
      s := s.(sent := Remove(s.sent, at.value));
      lostCount := lostCount + 1;
      if !p.inFlight {
        spaces := spaces[e := s];
        return;
      }
      if e >= 2 {
        bytesInFlight := SaturatingSub(bytesInFlight, p.size);
      }
      groups := GroupLost(groups, p);
      spaces := spaces[e := s.(lost := s.lost + p.frames)];
      assert State() == Lose(before, pn, e);
    }

    method OnLossDetectionTimeout(completed: bool, now: int, delay: int)
      requires Valid(State())
      modifies this
      ensures Valid(State()) && State() == TimedOut(old(State()), completed, now, delay)
    {
      var due, e := Earliest(LossTimes(State()), completed).0, Earliest(LossTimes(State()), completed).1;
      if due.Some? {
        DetectLostPackets(e, now, delay);
        return;
      }
      var probe := Earliest(ElicitingTimes(State()), completed).1;
      spaces := spaces[probe := spaces[probe].(probes := 2)];
    }

    method DropUnackedData(e: nat)
      requires Valid(State()) && e < EPOCHS
      modifies this
      ensures Valid(State()) && State() == DropSpace(old(State()), e)
    {
      var s := spaces[e];
      var unacked := SumInFlight(s.sent);
      if e >= 2 {
        bytesInFlight := SaturatingSub(bytesInFlight, unacked);
      }
      spaces := spaces[e := s.(sent := [], acked := [], lost := [], lossTime := None, probes := 0, lastEliciting := None)];
      assert Valid(DropSpace(old(State()), e));
    }
  }
}
