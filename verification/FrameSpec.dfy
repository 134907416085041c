/** The wire format of frames (src/frame.rs): what a frame is printed as, what a byte
    sequence parses as, and that the two undo each other. */
module FrameSpec {
  import opened Prelude
  import opened Chunks
  import opened RangeSets
  import opened FrameTypes
  import opened OctetCursor

  /** src/packet.rs, `Type`. */
  datatype PacketType = Initial | Retry | Handshake | ZeroRTT | VersionNegotiation | Short

  // ---------- printing ----------

  predicate Fits(v: nat) {
    v < VARINT_LIMIT
  }

  /** Ranges of packet numbers as an ACK frame can carry them. */
  ghost predicate AckRanges(s: seq<Range>) {
    s != [] && Canonical(s) && NonEmpty(s) && s[|s| - 1].end <= VARINT_LIMIT
  }

  /** The frames whose fields the printer can write. */
  ghost predicate Printable(f: Frame) {
    match f
    case Padding(_) => true
    case Ping => true
    case Ack(t, d, ranges) => Fits(t) && Fits(d) && AckRanges(ranges)
    case BlockInfo(id, size, priority, deadline, start) =>
      Fits(id) && Fits(size) && Fits(priority) && Fits(deadline) && Fits(start)
    case ResetStream(id, code, size) => Fits(id) && Fits(size) && code < 0x1_0000
    case StopSending(id, code) => Fits(id) && Fits(code)
    case Crypto(c) => Fits(c.off) && Fits(|c.data|)
    case NewToken(token) => Fits(|token|)
    case Stream(id, c) => Fits(id) && Fits(c.off) && Fits(|c.data|)
    case MaxData(max) => Fits(max)
    case MaxStreamData(id, max) => Fits(id) && Fits(max)
    case MaxStreamsBidi(max) => Fits(max)
    case MaxStreamsUni(max) => Fits(max)
    case DataBlocked(limit) => Fits(limit)
    case StreamDataBlocked(id, limit) => Fits(id) && Fits(limit)
    case StreamsBlockedBidi(limit) => Fits(limit)
    case StreamsBlockedUni(limit) => Fits(limit)
    case NewConnectionId(n, retire, _, _) => Fits(n) && Fits(retire)
    case RetireConnectionId(n) => Fits(n)
    case PathChallenge(_) => true
    case PathResponse(_) => true
    case ConnectionClose(code, ty, reason) => Fits(code) && Fits(ty) && Fits(|reason|)
    case ApplicationClose(code, reason) => Fits(code) && Fits(|reason|)
    case HandshakeDone => true
    case Fec(_, _) => true
  }

  /** The frames that the wire format can carry: a Crypto frame has no place for `fin`,
      a FEC frame has no type of its own, and some data has a fixed size. */
  ghost predicate WellFormed(f: Frame) {
    && Printable(f)
    && !f.Fec?
    && (f.Crypto? ==> !f.chunk.fin)
    && (f.Stream? ==> f.chunk.MaxOff() < VARINT_LIMIT)
    && (f.NewConnectionId? ==> |f.connId| < 256 && |f.resetToken| == 16)
    && (f.PathChallenge? || f.PathResponse? ==> |f.challenge| == 8)
  }

  /** The ranges of an ACK frame below the first one, from the largest down: each as its
      distance from the range above and its length. */
  ghost function AckBlocks(s: seq<Range>, smallest: nat): seq<byte>
    requires Canonical(s) && NonEmpty(s) && smallest < VARINT_LIMIT
    requires s != [] ==> s[|s| - 1].end < smallest
  {
    if s == [] then []
    else
      var n := |s| - 1;
      Varint(smallest - s[n].end - 1) + Varint(s[n].end - 1 - s[n].start) + AckBlocks(s[..n], s[n].start)
  }

  /** A range and the gap after it take at least two numbers, so the count fits as well. */
  lemma {:induction false} CountBounded(s: seq<Range>)
    requires Canonical(s) && NonEmpty(s) && s != []
    ensures 2 * |s| <= s[|s| - 1].end + 1
  {
    var n := |s| - 1;
    if n > 0 {
      CountBounded(s[..n]);
      assert s[n - 1].end < s[n].start && s[n] in s;
    } else {
      assert s[0] in s;
    }
  }

  function StreamType(fin: bool): nat {
    if fin then 0x0f else 0x0e
  }

  ghost function Zeros(n: nat): (s: seq<byte>)
    ensures |s| == n && forall i :: 0 <= i < n ==> s[i] == 0
  {
    seq(n, i => 0)
  }

  /** The type of a frame and the varints that follow it directly. */
  function Head(f: Frame): (vs: seq<nat>)
    requires Printable(f) && !f.Padding? && !f.Fec?
    ensures vs != []
  {
    match f
    case Ping => [0x01]
    case Ack(t, d, s) =>
      var n := |s| - 1;
      assert s[n] in s;
      [0x02, s[n].end - 1, t, d, n, s[n].end - 1 - s[n].start]
    case BlockInfo(id, size, priority, deadline, start) => [0x20, id, size, priority, deadline, start]
    case ResetStream(id, _, _) => [0x04, id]
    case StopSending(id, code) => [0x05, id, code]
    case Crypto(c) => [0x06, c.off, |c.data|]
    case NewToken(token) => [0x07, |token|]
    case Stream(id, c) => [StreamType(c.fin), id, c.off, |c.data|]
    case MaxData(max) => [0x10, max]
    case MaxStreamData(id, max) => [0x11, id, max]
    case MaxStreamsBidi(max) => [0x12, max]
    case MaxStreamsUni(max) => [0x13, max]
    case DataBlocked(limit) => [0x14, limit]
    case StreamDataBlocked(id, limit) => [0x15, id, limit]
    case StreamsBlockedBidi(limit) => [0x16, limit]
    case StreamsBlockedUni(limit) => [0x17, limit]
    case NewConnectionId(n, retire, _, _) => [0x18, n, retire]
    case RetireConnectionId(n) => [0x19, n]
    case PathChallenge(_) => [0x1a]
    case PathResponse(_) => [0x1b]
    case ConnectionClose(code, ty, reason) => [0x1c, code, ty, |reason|]
    case ApplicationClose(code, reason) => [0x1d, code, |reason|]
    case HandshakeDone => [0x1e]
  }

  lemma HeadFits(f: Frame)
    requires Printable(f) && !f.Padding? && !f.Fec?
    ensures Head(f)[0] <= 0x20 && AllVarints(Head(f))
  {
    if f.Ack? {
      CountBounded(f.ranges);
    }
  }

  /** The data that ends a frame. */
  function Data(f: Frame): seq<byte> {
    if f.Crypto? || f.Stream? then f.chunk.data
    else if f.NewToken? then f.token
    else if f.PathChallenge? || f.PathResponse? then f.challenge
    else if f.ConnectionClose? || f.ApplicationClose? then f.reason
    else if f.Fec? then f.shard
    else []
  }

  /** What follows the leading varints. */
  ghost function Body(f: Frame): seq<byte>
    requires Printable(f) && !f.Padding? && !f.Fec?
  {
    if f.Ack? then
      var n := |f.ranges| - 1;
      assert f.ranges[n] in f.ranges;
      AckBlocks(f.ranges[..n], f.ranges[n].start)
    else if f.ResetStream? then BigEndian(f.resetCode, 2) + Varint(f.finalSize)
    else if f.NewConnectionId? then BigEndian(|f.connId| % 256, 1) + f.connId + f.resetToken
    else Data(f)
  }

  /** What `to_bytes` writes. */
  ghost function Encode(f: Frame): seq<byte>
    requires Printable(f)
  {
    if f.Padding? then Zeros(f.len)
    else if f.Fec? then Data(f)
    else
      HeadFits(f);
      Varints(Head(f)) + Body(f)
  }

  // ---------- parsing ----------

  function LeadingZeros(s: seq<byte>): (n: nat)
    ensures n <= |s|
  {
    if s != [] && s[0] == 0 then 1 + LeadingZeros(s[1..]) else 0
  }

  /** One more range of an ACK frame, read as a gap and a length below `smallest`. */
  function NextBlock(s: seq<byte>, smallest: nat): (r: Result<Parsed<Range>>)
    ensures r.Ok? ==> |r.value.rest| <= |s| && r.value.value.start < r.value.value.end < smallest
  {
    var gap :- ReadVarint(s);
    if smallest < 2 + gap.value then Err(InvalidFrame)
    else
      var largest := smallest - gap.value - 2;
      var block :- ReadVarint(gap.rest);
      if largest < block.value then Err(InvalidFrame)
      else Ok(Parsed(Range(largest - block.value, largest + 1), block.rest))
  }

  function DecodeBlocks(s: seq<byte>, count: nat, smallest: nat, ranges: seq<Range>): (r: Result<Parsed<seq<Range>>>)
    ensures r.Ok? ==> |r.value.rest| <= |s|
    decreases count
  {
    if count == 0 then Ok(Parsed(ranges, s))
    else
      var next :- NextBlock(s, smallest);
      DecodeBlocks(next.rest, count - 1, next.value.start, Inserted(ranges, next.value))
  }

  function DecodeAck(s: seq<byte>): (r: Result<Parsed<Frame>>)
    ensures r.Ok? ==> |r.value.rest| <= |s|
  {
    var p :- ReadVarints(s, 5);
    var largest, block := p.value[0], p.value[4];
    if largest < block then Err(InvalidFrame)
    else
      var q :- DecodeBlocks(p.rest, p.value[3], largest - block, Inserted([], Range(largest - block, largest + 1)));
      Ok(Parsed(Ack(p.value[1], p.value[2], q.value), q.rest))
  }

  function DecodeStream(ty: nat, s: seq<byte>): (r: Result<Parsed<Frame>>)
    ensures r.Ok? ==> |r.value.rest| <= |s|
  {
    var id :- ReadVarint(s);
    var off :- if ty / 4 % 2 == 1 then ReadVarint(id.rest) else Ok(Parsed(0, id.rest));
    var len :- if ty / 2 % 2 == 1 then ReadVarint(off.rest) else Ok(Parsed(|off.rest|, off.rest));
    if off.value + len.value >= VARINT_LIMIT then Err(InvalidFrame)
    else
      var data :- ReadBytes(len.rest, len.value);
      Ok(Parsed(Stream(id.value, RangeBuf(data.value, off.value, ty % 2 == 1)), data.rest))
  }

  function DecodeReset(s: seq<byte>): (r: Result<Parsed<Frame>>)
    ensures r.Ok? ==> |r.value.rest| <= |s|
  {
    var id :- ReadVarint(s);
    var code :- ReadBytes(id.rest, 2);
    var size :- ReadVarint(code.rest);
    Ok(Parsed(ResetStream(id.value, Value(code.value), size.value), size.rest))
  }

  function DecodeNewId(s: seq<byte>): (r: Result<Parsed<Frame>>)
    ensures r.Ok? ==> |r.value.rest| <= |s|
  {
    var p :- ReadVarints(s, 2);
    var len :- ReadBytes(p.rest, 1);
    var id :- ReadBytes(len.rest, Value(len.value));
    var token :- ReadBytes(id.rest, 16);
    Ok(Parsed(NewConnectionId(p.value[0], p.value[1], id.value, token.value), token.rest))
  }

  /** `n` varints, the last of which announces the bytes that follow. */
  function ReadSized(s: seq<byte>, n: nat): (r: Result<(Parsed<seq<nat>>, seq<byte>)>)
    requires n > 0
    ensures r.Ok? ==> |r.value.0.value| == n && |r.value.0.rest| <= |s|
  {
    var p :- ReadVarints(s, n);
    var d :- ReadBytes(p.rest, p.value[n - 1]);
    Ok((Parsed(p.value, d.rest), d.value))
  }

  /** The frames that consist of varints alone. */
  function FieldsOf(ty: nat): Option<nat> {
    if ty == 0x20 then Some(5)
    else if ty in {0x05, 0x11, 0x15} then Some(2)
    else if ty in {0x10, 0x12, 0x13, 0x14, 0x16, 0x17, 0x19} then Some(1)
    else None
  }

  function FromFields(ty: nat, v: seq<nat>): Frame
    requires FieldsOf(ty).Some? && |v| == FieldsOf(ty).value
  {
    match ty
    case 0x05 => StopSending(v[0], v[1])
    case 0x10 => MaxData(v[0])
    case 0x11 => MaxStreamData(v[0], v[1])
    case 0x12 => MaxStreamsBidi(v[0])
    case 0x13 => MaxStreamsUni(v[0])
    case 0x14 => DataBlocked(v[0])
    case 0x15 => StreamDataBlocked(v[0], v[1])
    case 0x16 => StreamsBlockedBidi(v[0])
    case 0x17 => StreamsBlockedUni(v[0])
    case 0x19 => RetireConnectionId(v[0])
    case _ => BlockInfo(v[0], v[1], v[2], v[3], v[4])
  }

  /** What follows the type of a frame. */
  function DecodeBody(ty: nat, s: seq<byte>): (r: Result<Parsed<Frame>>)
    ensures r.Ok? ==> |r.value.rest| <= |s|
  {
    if FieldsOf(ty).Some? then
      var p :- ReadVarints(s, FieldsOf(ty).value);
      Ok(Parsed(FromFields(ty, p.value), p.rest))
    else if 0x08 <= ty <= 0x0f then DecodeStream(ty, s)
    else
      match ty
      case 0x00 => Ok(Parsed(Padding(1 + LeadingZeros(s)), s[LeadingZeros(s)..]))
      case 0x01 => Ok(Parsed(Ping, s))
      case 0x02 => DecodeAck(s)
      case 0x04 => DecodeReset(s)
      case 0x06 =>
        var p :- ReadSized(s, 2);
        Ok(Parsed(Crypto(RangeBuf(p.1, p.0.value[0], false)), p.0.rest))
      case 0x07 =>
        var p :- ReadSized(s, 1);
        Ok(Parsed(NewToken(p.1), p.0.rest))
      case 0x18 => DecodeNewId(s)
      case 0x1a =>
        var p :- ReadBytes(s, 8);
        Ok(Parsed(PathChallenge(p.value), p.rest))
      case 0x1b =>
        var p :- ReadBytes(s, 8);
        Ok(Parsed(PathResponse(p.value), p.rest))
      case 0x1c =>
        var p :- ReadSized(s, 3);
        Ok(Parsed(ConnectionClose(p.0.value[0], p.0.value[1], p.1), p.0.rest))
      case 0x1d =>
        var p :- ReadSized(s, 2);
        Ok(Parsed(ApplicationClose(p.0.value[0], p.1), p.0.rest))
      case 0x1e => Ok(Parsed(HandshakeDone, s))
      case _ => Err(InvalidFrame)
  }

  /** Which frames may arrive in which packets. */
  predicate Allowed(pkt: PacketType, f: Frame) {
    if f.Padding? || f.Ping? then true
    else if pkt.ZeroRTT? && (f.Ack? || f.Crypto? || f.HandshakeDone? || f.NewToken? || f.PathResponse?
                             || f.RetireConnectionId? || f.ConnectionClose?) then false
    else if f.Ack? || f.Crypto? || f.ConnectionClose? then true
    else pkt.Short? || pkt.ZeroRTT?
  }

  /** What `from_bytes` reads. */
  function Decode(s: seq<byte>, pkt: PacketType): (r: Result<Parsed<Frame>>)
    ensures r.Ok? ==> |r.value.rest| < |s|
  {
    var ty :- ReadVarint(s);
    var p :- DecodeBody(ty.value, ty.rest);
    if Allowed(pkt, p.value) then Ok(p) else Err(InvalidPacket)
  }

  /** The frame that a type number stands for. */
  lemma TypeOf(ty: nat, s: seq<byte>)
    requires DecodeBody(ty, s).Ok?
    ensures var f := DecodeBody(ty, s).value.value;
            && (f.Padding? <==> ty == 0x00) && (f.Ping? <==> ty == 0x01) && (f.Ack? <==> ty == 0x02)
            && (f.Crypto? <==> ty == 0x06) && (f.NewToken? <==> ty == 0x07)
            && (f.RetireConnectionId? <==> ty == 0x19) && (f.PathResponse? <==> ty == 0x1b)
            && (f.ConnectionClose? <==> ty == 0x1c) && (f.HandshakeDone? <==> ty == 0x1e)
  {
    hide ReadVarints, ReadSized, ReadBytes;
    if FieldsOf(ty).Some? {
    } else if 0x08 <= ty <= 0x0f {
      hide FieldsOf, FromFields, LeadingZeros;
    } else {
      hide FromFields, LeadingZeros;
    }
  }

  /** Which frames may arrive in which packets, by the numbers on the wire: a short packet may
      carry every frame; a 0-RTT packet none that section 12.5 of RFC 9000 rules out there, and,
      other than in that section, no CONNECTION_CLOSE of type 0x1c; all others only PADDING,
      PING, ACK, CRYPTO and that CONNECTION_CLOSE. A frame that parses but may not arrive refuses
      the packet. */
  lemma AllowedTypes(s: seq<byte>, pkt: PacketType)
    requires ReadVarint(s).Ok? && DecodeBody(ReadVarint(s).value.value, ReadVarint(s).value.rest).Ok?
    ensures var ty := ReadVarint(s).value.value;
            Decode(s, pkt).Ok? <==>
              match pkt
              case Short => true
              case ZeroRTT => ty !in {0x02, 0x06, 0x07, 0x19, 0x1b, 0x1c, 0x1e}
              case _ => ty in {0x00, 0x01, 0x02, 0x06, 0x1c}
    ensures Decode(s, pkt).Err? ==> Decode(s, pkt).error == InvalidPacket
  {
    TypeOf(ReadVarint(s).value.value, ReadVarint(s).value.rest);
    hide DecodeBody, ReadVarint;
  }
}
