/** Printing and parsing frames undo each other, one frame at a time and for whole
    payloads. */
module FrameRoundTrip {
  import opened Prelude
  import opened RangeSets
  import opened FrameTypes
  import opened OctetCursor
  import opened FrameSpec

  // ---------- ACK frames ----------

  lemma Cut(a: seq<byte>, b: seq<byte>)
    ensures (a + b)[..|a|] == a && (a + b)[|a|..] == b
  {
  }

  lemma Regroup(a: seq<byte>, b: seq<byte>, c: seq<byte>, d: seq<byte>)
    ensures a + b + c == a + (b + c)
    ensures a + b + c + d == a + (b + (c + d))
  {
  }

  lemma BlockComesBack(r: Range, smallest: nat, t: seq<byte>)
    requires r.start < r.end < smallest < VARINT_LIMIT
    ensures NextBlock(Varint(smallest - r.end - 1) + (Varint(r.end - 1 - r.start) + t), smallest) == Ok(Parsed(r, t))
  {
    hide ReadVarint, Varint, BigEndian, Value;
    VarintRoundTrip(smallest - r.end - 1, Varint(r.end - 1 - r.start) + t);
    VarintRoundTrip(r.end - 1 - r.start, t);
  }

  lemma Peeled(s: seq<Range>, above: seq<Range>)
    requires Canonical(s + above) && NonEmpty(s) && s != [] && above != []
    ensures var n := |s| - 1;
            && s[n].start < s[n].end < above[0].start
            && Canonical(above) && Canonical(s[..n]) && NonEmpty(s[..n])
            && (n > 0 ==> s[..n][n - 1].end < s[n].start)
            && s[..n] + ([s[n]] + above) == s + above
  {
    assert s[|s| - 1] in s;
    Halves(s, above);
  }

  /** Each printed range is put in front of those read before it. */
  lemma {:induction false} BlocksComeBack(s: seq<Range>, smallest: nat, above: seq<Range>, t: seq<byte>)
    requires Canonical(s + above) && NonEmpty(s) && above != [] && above[0].start == smallest < VARINT_LIMIT
    ensures Canonical(s) && (s != [] ==> s[|s| - 1].end < smallest)
    ensures DecodeBlocks(AckBlocks(s, smallest) + t, |s|, smallest, above) == Ok(Parsed(s + above, t))
  {
    hide ReadVarint, Varint, NextBlock, Inserted, Canonical, NonEmpty;
    Halves(s, above);
    if s == [] {
      assert s + above == above && AckBlocks(s, smallest) + t == t;
    } else {
      var n := |s| - 1;
      var r := s[n];
      Peeled(s, above);
      var gap, block, blocks := Varint(smallest - r.end - 1), Varint(r.end - 1 - r.start), AckBlocks(s[..n], r.start);
      Regroup(gap, block, blocks, t);
      BlockComesBack(r, smallest, blocks + t);
      InsertedInFront(above, r);
      BlocksComeBack(s[..n], r.start, [r] + above, t);
    }
  }

  lemma Halves(s: seq<Range>, above: seq<Range>)
    requires Canonical(s + above)
    ensures Canonical(s) && Canonical(above)
    ensures s != [] && above != [] ==> s[|s| - 1].end < above[0].start
  {
    var u := s + above;
    assert forall i :: 0 <= i < |s| ==> s[i] == u[i];
    assert forall i :: 0 <= i < |above| ==> above[i] == u[|s| + i];
  }

  /** However an ACK frame was forged: if it is accepted, it holds `count + 1` separated,
      non-empty ranges, the largest of which ends at the announced largest number. */
  lemma {:induction false} BlocksAccepted(s: seq<byte>, count: nat, smallest: nat, above: seq<Range>)
    requires Canonical(above) && NonEmpty(above) && above != [] && above[0].start == smallest
    requires DecodeBlocks(s, count, smallest, above).Ok?
    decreases count
    ensures var r := DecodeBlocks(s, count, smallest, above).value.value;
            && Canonical(r) && NonEmpty(r)
            && |r| == |above| + count
            && r[|r| - 1] == above[|above| - 1]
  {
    hide NextBlock, Inserted, Canonical, NonEmpty;
    if count > 0 {
      var next := NextBlock(s, smallest).value;
      InsertedInFront(above, next.value);
      InsertedCanonical(above, next.value);
      InsertedNonEmpty(above, next.value);
      BlocksAccepted(next.rest, count - 1, next.value.start, [next.value] + above);
    }
  }

  lemma InsertedAlone(r: Range)
    requires r.start <= r.end
    ensures Inserted([], r) == [r] && Canonical([r])
  {
    InsertedInFront([], r);
    assert [r] + [] == [r];
  }

  lemma AckAccepted(s: seq<byte>)
    requires DecodeAck(s).Ok?
    ensures ReadVarints(s, 5).Ok?
    ensures var v, f := ReadVarints(s, 5).value.value, DecodeAck(s).value.value;
            && f.Ack? && WellFormed(f)
            && |f.ranges| == v[3] + 1
            && f.ranges[|f.ranges| - 1] == Range(v[0] - v[4], v[0] + 1)
            && f.packetTime == v[1] && f.ackDelay == v[2]
  {
    hide ReadVarints, DecodeBlocks, Inserted;
    var p := ReadVarints(s, 5).value;
    var item := Range(p.value[0] - p.value[4], p.value[0] + 1);
    VarintsInRange(s, 5);
    InsertedAlone(item);
    BlocksAccepted(p.rest, p.value[3], item.start, [item]);
  }

  // ---------- padding ----------

  lemma {:induction false} ZerosLead(n: nat, t: seq<byte>)
    ensures LeadingZeros(Zeros(n) + t) == n + LeadingZeros(t)
  {
    if n == 0 {
      assert Zeros(0) + t == t;
    } else {
      assert (Zeros(n) + t)[1..] == Zeros(n - 1) + t;
      ZerosLead(n - 1, t);
    }
  }

  lemma ZeroIsVarint(t: seq<byte>)
    ensures ReadVarint([0] + t) == Ok(Parsed(0, t))
  {
    VarintRoundTrip(0, t);
    assert BigEndian(0, 1) == BigEndian(0, 0) + [0];
    assert Varint(0) == [0];
  }

  /** A run of padding bytes is one frame, however many frames it was printed from. */
  lemma PaddingRead(n: nat, t: seq<byte>, pkt: PacketType)
    requires n > 0
    ensures var z := LeadingZeros(t);
            Decode(Zeros(n) + t, pkt) == Ok(Parsed(Padding(n + z), t[z..]))
  {
    hide ReadVarint, Zeros, LeadingZeros;
    var s, z := Zeros(n - 1) + t, LeadingZeros(t);
    assert Zeros(n) + t == [0] + s;
    ZeroIsVarint(s);
    ZerosLead(n - 1, t);
    DropTwice(Zeros(n - 1), t, z);
  }

  lemma DropTwice(a: seq<byte>, b: seq<byte>, k: nat)
    requires k <= |b|
    ensures (a + b)[|a| + k..] == b[k..]
  {
  }

  // ---------- any frame ----------

  /** Behind its leading varints, `f` parses to itself and leaves `t`. */
  ghost predicate ComesBack(f: Frame, s: seq<byte>, t: seq<byte>)
    requires WellFormed(f) && !f.Padding?
  {
    DecodeBody(Head(f)[0], s) == Ok(Parsed(f, t))
  }

  /** `s` starts with the varints of `f` and goes on with `rest`. */
  ghost predicate Headed(f: Frame, s: seq<byte>, rest: seq<byte>)
    requires WellFormed(f) && !f.Padding?
  {
    ReadVarints(s, |Head(f)| - 1) == Ok(Parsed(Head(f)[1..], rest))
  }

  lemma FieldsComeBack(f: Frame, s: seq<byte>, t: seq<byte>)
    requires WellFormed(f) && !f.Padding? && FieldsOf(Head(f)[0]).Some? && Headed(f, s, t)
    ensures ComesBack(f, s, t)
  {
    hide ReadVarints;
  }

  /** The data that the last varint announces. */
  lemma SizedData(s: seq<byte>, vs: seq<nat>, data: seq<byte>, t: seq<byte>)
    requires vs != [] && vs[|vs| - 1] == |data|
    requires ReadVarints(s, |vs|) == Ok(Parsed(vs, data + t))
    ensures ReadSized(s, |vs|) == Ok((Parsed(vs, t), data))
  {
    hide ReadVarints;
    Cut(data, t);
  }

  lemma SizedComeBack(f: Frame, s: seq<byte>, t: seq<byte>)
    requires WellFormed(f) && (f.Crypto? || f.NewToken? || f.ConnectionClose? || f.ApplicationClose?)
    requires Headed(f, s, Body(f) + t)
    ensures ComesBack(f, s, t)
  {
    hide ReadVarints, ReadSized;
    SizedData(s, Head(f)[1..], Body(f), t);
  }

  /** Reading three varints in a row is reading one three times. */
  lemma ThreeFields(s: seq<byte>)
    requires ReadVarints(s, 3).Ok?
    ensures var v := ReadVarints(s, 3).value;
            && ReadVarint(s).Ok?
            && ReadVarint(ReadVarint(s).value.rest).Ok?
            && var b := ReadVarint(ReadVarint(s).value.rest).value;
            && ReadVarint(b.rest) == Ok(Parsed(v.value[2], v.rest))
            && ReadVarint(s).value.value == v.value[0] && b.value == v.value[1]
  {
    hide ReadVarint, Varint, BigEndian, Value;
    var a := ReadVarint(s).value;
    var b := ReadVarint(a.rest).value;
    assert ReadVarints(a.rest, 2).Ok? && ReadVarints(b.rest, 1).Ok?;
    var c := ReadVarint(b.rest).value;
    assert ReadVarints(c.rest, 0) == Ok(Parsed([], c.rest));
    assert ReadVarints(b.rest, 1) == Ok(Parsed([c.value] + [], c.rest));
  }

  /** The printer always writes the offset and the length of stream data. */
  lemma StreamComesBack(f: Frame, s: seq<byte>, t: seq<byte>)
    requires WellFormed(f) && f.Stream? && Headed(f, s, Body(f) + t)
    ensures ComesBack(f, s, t)
  {
    hide ReadVarint, ReadVarints;
    ThreeFields(s);
    Cut(f.chunk.data, t);
  }

  lemma ResetComesBack(f: Frame, s: seq<byte>, t: seq<byte>)
    requires WellFormed(f) && f.ResetStream? && Headed(f, s, Body(f) + t)
    ensures ComesBack(f, s, t)
  {
    hide ReadVarint, Varint, BigEndian, Value;
    var code, size := BigEndian(f.resetCode, 2), Varint(f.finalSize);
    Regroup(code, size, t, []);
    Cut(code, size + t);
    Powers();
    ValueOfBigEndian(f.resetCode, 2);
    VarintRoundTrip(f.finalSize, t);
    var id := ReadVarint(s).value;
    assert ReadVarints(id.rest, 0) == Ok(Parsed([], id.rest));
    assert ([id.value] + [])[0] == f.streamId;
  }

  lemma NewIdComesBack(f: Frame, s: seq<byte>, t: seq<byte>)
    requires WellFormed(f) && f.NewConnectionId? && Headed(f, s, Body(f) + t)
    ensures ComesBack(f, s, t)
  {
    hide ReadVarints, BigEndian, Value;
    var len, id, token := BigEndian(|f.connId| % 256, 1), f.connId, f.resetToken;
    Regroup(len, id, token, t);
    Cut(len, id + (token + t));
    Cut(id, token + t);
    Cut(token, t);
    Powers();
    ValueOfBigEndian(|f.connId|, 1);
  }

  lemma PlainComesBack(f: Frame, s: seq<byte>, t: seq<byte>)
    requires WellFormed(f) && (f.Ping? || f.HandshakeDone? || f.PathChallenge? || f.PathResponse?)
    requires s == Body(f) + t
    ensures ComesBack(f, s, t)
  {
    hide ReadVarint, ReadVarints, Varint, BigEndian, AckBlocks;
    Cut(Body(f), t);
    assert [] + t == t;
  }

  lemma AckParts(s: seq<Range>)
    requires AckRanges(s)
    ensures var n := |s| - 1;
            && s[n].start < s[n].end <= VARINT_LIMIT && NonEmpty(s[..n]) && s[..n] + [s[n]] == s
  {
    assert s[|s| - 1] in s;
  }

  lemma AckParses(f: Frame, s: seq<byte>, t: seq<byte>)
    requires WellFormed(f) && f.Ack? && Headed(f, s, Body(f) + t)
    ensures DecodeAck(s) == Ok(Parsed(f, t))
  {
    hide ReadVarints, AckBlocks, DecodeBlocks, Inserted, Canonical, NonEmpty;
    AckParts(f.ranges);
    var n := |f.ranges| - 1;
    var last := f.ranges[n];
    var p := ReadVarints(s, 5).value;
    assert p.value == [last.end - 1, f.packetTime, f.ackDelay, n, last.end - 1 - last.start];
    BlocksComeBack(f.ranges[..n], last.start, [last], t);
    InsertedAlone(last);
  }

  /** Every set of packet numbers comes back from the ACK frame printed for it: no
      subtraction in the printer underflows and none in the parser fails. */
  lemma AckComesBack(f: Frame, s: seq<byte>, t: seq<byte>)
    requires WellFormed(f) && f.Ack? && Headed(f, s, Body(f) + t)
    ensures ComesBack(f, s, t)
  {
    hide ReadVarints, DecodeAck, Body;
    AckParses(f, s, t);
  }

  lemma BodyComesBack(f: Frame, s: seq<byte>, t: seq<byte>)
    requires WellFormed(f) && !f.Padding? && Headed(f, s, Body(f) + t)
    requires |Head(f)| == 1 ==> s == Body(f) + t
    ensures ComesBack(f, s, t)
  {
    hide ReadVarints, DecodeBody, AckBlocks;
    if f.Ack? {
      AckComesBack(f, s, t);
    } else if f.Stream? {
      StreamComesBack(f, s, t);
    } else if f.ResetStream? {
      ResetComesBack(f, s, t);
    } else if f.NewConnectionId? {
      NewIdComesBack(f, s, t);
    } else if f.Crypto? || f.NewToken? || f.ConnectionClose? || f.ApplicationClose? {
      SizedComeBack(f, s, t);
    } else if f.Ping? || f.HandshakeDone? || f.PathChallenge? || f.PathResponse? {
      PlainComesBack(f, s, t);
    } else {
      assert Body(f) + t == t;
      FieldsComeBack(f, s, t);
    }
  }

  /** The type is read first, then the other leading varints. */
  lemma Opened(f: Frame, t: seq<byte>)
    requires WellFormed(f) && !f.Padding?
    ensures AllVarints(Head(f)[1..])
    ensures var s := Varints(Head(f)[1..]) + (Body(f) + t);
            && ReadVarint(Encode(f) + t) == Ok(Parsed(Head(f)[0], s))
            && Headed(f, s, Body(f) + t)
            && (|Head(f)| == 1 ==> s == Body(f) + t)
  {
    hide ReadVarint, ReadVarints, Varint, Head, Body, Printable;
    HeadFits(f);
    var ty, vs := Head(f)[0], Head(f)[1..];
    Regroup(Varint(ty), Varints(vs), Body(f), t);
    Regroup(Varints(vs), Body(f), t, []);
    VarintRoundTrip(ty, Varints(vs) + (Body(f) + t));
    VarintsRoundTrip(vs, Body(f) + t);
  }

  /** A printed frame parses to itself, and exactly the printed bytes are consumed, in
      every packet that may carry it. */
  lemma FrameComesBack(f: Frame, t: seq<byte>, pkt: PacketType)
    requires WellFormed(f)
    requires f.Padding? ==> f.len > 0 && LeadingZeros(t) == 0
    ensures Decode(Encode(f) + t, pkt) == if Allowed(pkt, f) then Ok(Parsed(f, t)) else Err(InvalidPacket)
  {
    hide ReadVarint, DecodeBody, Head, Body, Printable, Varints, Zeros, LeadingZeros, Allowed;
    if f.Padding? {
      PaddingComesBack(f, t, pkt);
    } else {
      Opened(f, t);
      BodyComesBack(f, Varints(Head(f)[1..]) + (Body(f) + t), t);
    }
  }

  lemma PaddingComesBack(f: Frame, t: seq<byte>, pkt: PacketType)
    requires f.Padding? && f.len > 0 && LeadingZeros(t) == 0
    ensures WellFormed(f) && Allowed(pkt, f) && Decode(Encode(f) + t, pkt) == Ok(Parsed(f, t))
  {
    PaddingRead(f.len, t, pkt);
  }
}
