/** Printing and parsing frames through the cursor (src/frame.rs, `to_bytes`, `wire_len`,
    `from_bytes`), proved against the wire format. */
module FrameCodec {
  import opened Prelude
  import opened Chunks
  import opened RangeSets
  import opened FrameTypes
  import opened OctetCursor
  import opened FrameSpec
  import opened FrameRoundTrip
  import opened FramePayload

  // ---------- wire_len ----------

  lemma LenCons(a: nat, vs: seq<nat>)
    requires Fits(a) && AllVarints(vs)
    ensures AllVarints([a] + vs) && FieldsLen([a] + vs) == VarintLen(a) + FieldsLen(vs)
  {
    assert ([a] + vs)[1..] == vs;
  }

  lemma Len1(a: nat)
    requires Fits(a)
    ensures FieldsLen([a]) == VarintLen(a)
  {
    LenCons(a, []);
    assert [a] + [] == [a];
  }

  lemma Len2(a: nat, b: nat)
    requires Fits(a) && Fits(b)
    ensures FieldsLen([a, b]) == VarintLen(a) + VarintLen(b)
  {
    Len1(b);
    LenCons(a, [b]);
    assert [a] + [b] == [a, b];
  }

  lemma Len3(a: nat, b: nat, c: nat)
    requires Fits(a) && Fits(b) && Fits(c)
    ensures FieldsLen([a, b, c]) == VarintLen(a) + VarintLen(b) + VarintLen(c)
  {
    Len2(b, c);
    LenCons(a, [b, c]);
    assert [a] + [b, c] == [a, b, c];
  }

  lemma Len4(a: nat, b: nat, c: nat, d: nat)
    requires Fits(a) && Fits(b) && Fits(c) && Fits(d)
    ensures FieldsLen([a, b, c, d]) == VarintLen(a) + VarintLen(b) + VarintLen(c) + VarintLen(d)
  {
    Len3(b, c, d);
    LenCons(a, [b, c, d]);
    assert [a] + [b, c, d] == [a, b, c, d];
  }

  lemma Len6(a: nat, b: nat, c: nat, d: nat, e: nat, g: nat)
    requires Fits(a) && Fits(b) && Fits(c) && Fits(d) && Fits(e) && Fits(g)
    ensures FieldsLen([a, b, c, d, e, g])
         == VarintLen(a) + VarintLen(b) + VarintLen(c) + VarintLen(d) + VarintLen(e) + VarintLen(g)
  {
    hide FieldsLen;
    Len4(c, d, e, g);
    LenCons(b, [c, d, e, g]);
    assert [b] + [c, d, e, g] == [b, c, d, e, g];
    LenCons(a, [b, c, d, e, g]);
    assert [a] + [b, c, d, e, g] == [a, b, c, d, e, g];
  }

  lemma EncodeLen(f: Frame)
    requires Printable(f)
    ensures f.Padding? ==> |Encode(f)| == f.len
    ensures f.Fec? ==> |Encode(f)| == |f.shard|
    ensures !f.Padding? && !f.Fec? ==> AllVarints(Head(f)) && |Encode(f)| == FieldsLen(Head(f)) + |Body(f)|
    ensures forall ty: nat :: ty <= 0x20 ==> VarintLen(ty) == 1
  {
    hide VarintLen, FieldsLen, Head, Body;
    if !f.Padding? && !f.Fec? {
      HeadFits(f);
    }
    SmallTypes();
  }

  lemma SmallTypes()
    ensures forall ty: nat :: ty <= 0x20 ==> VarintLen(ty) == 1
  {
  }

  /** The frames that are printed as varints alone. */
  predicate OfFields(f: Frame) {
    || f.BlockInfo? || f.StopSending? || f.MaxData? || f.MaxStreamData? || f.MaxStreamsBidi? || f.MaxStreamsUni?
    || f.DataBlocked? || f.StreamDataBlocked? || f.StreamsBlockedBidi? || f.StreamsBlockedUni? || f.RetireConnectionId?
  }

  method FieldsWireLen(f: Frame) returns (n: nat)
    requires Printable(f) && OfFields(f)
    ensures n == |Encode(f)|
  {
    hide Varint, Varints, FieldsLen, Encode, VarintLen;
    EncodeLen(f);
    match f {
      case BlockInfo(a, b, c, d, e) =>
        Len6(0x20, a, b, c, d, e);
        n := 1 + VarintLen(a) + VarintLen(b) + VarintLen(c) + VarintLen(d) + VarintLen(e);
      case StopSending(id, code) =>
        Len3(0x05, id, code);
        n := 1 + VarintLen(id) + VarintLen(code);
      case MaxData(max) =>
        Len2(0x10, max);
        n := 1 + VarintLen(max);
      case MaxStreamData(id, max) =>
        Len3(0x11, id, max);
        n := 1 + VarintLen(id) + VarintLen(max);
      case MaxStreamsBidi(max) =>
        Len2(0x12, max);
        n := 1 + VarintLen(max);
      case MaxStreamsUni(max) =>
        Len2(0x13, max);
        n := 1 + VarintLen(max);
      case DataBlocked(limit) =>
        Len2(0x14, limit);
        n := 1 + VarintLen(limit);
      case StreamDataBlocked(id, limit) =>
        Len3(0x15, id, limit);
        n := 1 + VarintLen(id) + VarintLen(limit);
      case StreamsBlockedBidi(limit) =>
        Len2(0x16, limit);
        n := 1 + VarintLen(limit);
      case StreamsBlockedUni(limit) =>
        Len2(0x17, limit);
        n := 1 + VarintLen(limit);
      case RetireConnectionId(num) =>
        Len2(0x19, num);
        n := 1 + VarintLen(num);
    }
  }

  /** The size of a frame is computed without printing it. */
  method WireLen(f: Frame) returns (n: nat)
    requires Printable(f)
    ensures n == |Encode(f)| <==> (f.PathChallenge? || f.PathResponse? ==> |f.challenge| == 8)
  {
    hide Varint, BigEndian, Varints, AckBlocks, FieldsLen, Encode, VarintLen;
    EncodeLen(f);
    match f {
      case Padding(len) => n := len;
      case Ping =>
        Len1(0x01);
        n := 1;
      case Ack(t, d, s) =>
        n := AckLen(t, d, s);
      case ResetStream(id, code, size) =>
        Len2(0x04, id);
        n := 1 + VarintLen(id) + 2 + VarintLen(size);
      case Crypto(c) =>
        Len3(0x06, c.off, |c.data|);
        n := 1 + VarintLen(c.off) + VarintLen(|c.data|) + |c.data|;
      case NewToken(token) =>
        Len2(0x07, |token|);
        n := 1 + VarintLen(|token|) + |token|;
      case Stream(id, c) =>
        Len4(StreamType(c.fin), id, c.off, |c.data|);
        n := 1 + VarintLen(id) + VarintLen(c.off) + VarintLen(|c.data|) + |c.data|;
      case NewConnectionId(num, retire, id, token) =>
        Len3(0x18, num, retire);
        n := 1 + VarintLen(num) + VarintLen(retire) + 1 + |id| + |token|;
      case PathChallenge(_) =>
        Len1(0x1a);
        n := 1 + 8;
      case PathResponse(_) =>
        Len1(0x1b);
        n := 1 + 8;
      case ConnectionClose(code, ty, reason) =>
        Len4(0x1c, code, ty, |reason|);
        n := 1 + VarintLen(code) + VarintLen(ty) + VarintLen(|reason|) + |reason|;
      case ApplicationClose(code, reason) =>
        Len3(0x1d, code, |reason|);
        n := 1 + VarintLen(code) + VarintLen(|reason|) + |reason|;
      case HandshakeDone =>
        Len1(0x1e);
        n := 1;
      case Fec(_, shard) => n := |shard|;
      case _ =>
        n := FieldsWireLen(f);
    }
  }

  lemma AckEncodeLen(t: nat, d: nat, s: seq<Range>)
    requires Fits(t) && Fits(d) && AckRanges(s)
    ensures var k := |s| - 1;
            && s[k].start < s[k].end && k < VARINT_LIMIT && Canonical(s[..k]) && NonEmpty(s[..k])
            && (k > 0 ==> s[..k][k - 1].end < s[k].start)
            && |Encode(Ack(t, d, s))| == 1 + VarintLen(s[k].end - 1) + VarintLen(t) + VarintLen(d) + VarintLen(k)
                                         + VarintLen(s[k].end - 1 - s[k].start) + |AckBlocks(s[..k], s[k].start)|
  {
    hide Varint, Varints, AckBlocks, FieldsLen;
    var k := |s| - 1;
    assert s[k] in s;
    CountBounded(s);
    HeadFits(Ack(t, d, s));
    Len6(2, s[k].end - 1, t, d, k, s[k].end - 1 - s[k].start);
  }

  lemma BlocksStep(s: seq<Range>, smallest: nat)
    requires Canonical(s) && NonEmpty(s) && s != [] && s[|s| - 1].end < smallest < VARINT_LIMIT
    ensures var k := |s| - 1;
            && s[k].start < s[k].end && Canonical(s[..k]) && NonEmpty(s[..k])
            && (k > 0 ==> s[..k][k - 1].end < s[k].start)
            && AckBlocks(s, smallest) == Varint(smallest - s[k].end - 1) + Varint(s[k].end - 1 - s[k].start)
                                         + AckBlocks(s[..k], s[k].start)
  {
    hide Varint;
    assert s[|s| - 1] in s;
  }

  /** The ACK case of `wire_len` walks the ranges from the largest down. */
  method AckLen(t: nat, d: nat, s: seq<Range>) returns (n: nat)
    requires Fits(t) && Fits(d) && AckRanges(s)
    ensures n == |Encode(Ack(t, d, s))|
  {
    hide Varint, AckBlocks, Encode, Canonical, NonEmpty;
    var k := |s| - 1;
    AckEncodeLen(t, d, s);
    n := 1 + VarintLen(s[k].end - 1) + VarintLen(t) + VarintLen(d) + VarintLen(k) + VarintLen(s[k].end - 1 - s[k].start);
    var smallest: nat := s[k].start;
    var it := s[..k];
    while it != []
      invariant smallest < VARINT_LIMIT && Canonical(it) && NonEmpty(it)
      invariant it != [] ==> it[|it| - 1].end < smallest
      invariant n + |AckBlocks(it, smallest)| == |Encode(Ack(t, d, s))|
    {
      BlocksStep(it, smallest);
      var block := it[|it| - 1];
      n := n + VarintLen(smallest - block.end - 1) + VarintLen(block.end - 1 - block.start);
      smallest := block.start;
      it := it[..|it| - 1];
    }
    assert |AckBlocks([], smallest)| == 0 by {
      NoBlocks(smallest);
    }
  }

  lemma NoBlocks(smallest: nat)
    requires smallest < VARINT_LIMIT
    ensures Canonical([]) && NonEmpty([]) && AckBlocks([], smallest) == []
  {
  }

  // ---------- to_bytes ----------

  lemma WroteBoth(a: seq<byte>, b: seq<byte>, w0: seq<byte>, a0: seq<byte>, w1: seq<byte>, a1: seq<byte>,
                  r: Result<()>, w2: seq<byte>, a2: seq<byte>)
    requires Wrote(a, w0, a0, Ok(()), w1, a1) && Wrote(b, w1, a1, r, w2, a2)
    ensures Wrote(a + b, w0, a0, r, w2, a2)
  {
  }

  lemma WroteNothing(w: seq<byte>, a: seq<byte>)
    ensures Wrote([], w, a, Ok(()), w, a)
  {
  }

  /** What does not fit, does not fit with more behind it. */
  lemma FailedEarly(s: seq<byte>, more: seq<byte>, w: seq<byte>, a: seq<byte>, r: Result<()>,
                    w': seq<byte>, a': seq<byte>)
    requires r.Err? && Wrote(s, w, a, r, w', a')
    ensures Wrote(s + more, w, a, r, w', a')
  {
  }

  /** `put_varint(0)` once for every byte of padding. */
  method PutPadding(len: nat, b: Octets) returns (r: Result<()>)
    requires b.Valid()
    modifies b`off, b.buf
    ensures b.Valid() && Wrote(Zeros(len), old(b.Before()), old(b.Ahead()), r, b.Before(), b.Ahead())
  {
    hide Varint;
    var left: nat := len;
    assert Zeros(0) == [];
    while left > 0
      invariant b.Valid() && left <= len
      invariant Wrote(Zeros(len - left), old(b.Before()), old(b.Ahead()), Ok(()), b.Before(), b.Ahead())
    {
      ZeroByte();
      assert Zeros(len - left) + [0] == Zeros(len - left + 1);
      ghost var w, a := b.Before(), b.Ahead();
      var put := b.PutVarint(0);
      WroteBoth(Zeros(len - left), [0], old(b.Before()), old(b.Ahead()), w, a, put, b.Before(), b.Ahead());
      if put.Err? {
        return put;
      }
      left := left - 1;
    }
    r := Ok(());
  }

  lemma ZeroByte()
    ensures Varint(0) == [0]
  {
    assert BigEndian(0, 1) == BigEndian(0, 0) + [0];
  }

  method PutTwo(gap: nat, size: nat, b: Octets) returns (r: Result<()>)
    requires Fits(gap) && Fits(size) && b.Valid()
    modifies b`off, b.buf
    ensures b.Valid() && Wrote(Varint(gap) + Varint(size), old(b.Before()), old(b.Ahead()), r, b.Before(), b.Ahead())
  {
    hide Varint;
    var _ :- b.PutVarint(gap);
    ghost var w, a := b.Before(), b.Ahead();
    r := b.PutVarint(size);
    WroteBoth(Varint(gap), Varint(size), old(b.Before()), old(b.Ahead()), w, a, r, b.Before(), b.Ahead());
  }

  /** The blocks of an ACK frame, from the largest range down. */
  method PutBlocks(s: seq<Range>, first: nat, b: Octets) returns (r: Result<()>)
    requires Canonical(s) && NonEmpty(s) && first < VARINT_LIMIT && (s != [] ==> s[|s| - 1].end < first)
    requires b.Valid()
    modifies b`off, b.buf
    ensures b.Valid() && Wrote(AckBlocks(s, first), old(b.Before()), old(b.Ahead()), r, b.Before(), b.Ahead())
  {
    hide Varint, AckBlocks, Canonical, NonEmpty, Wrote;
    var smallest: nat, it := first, s;
    ghost var done: seq<byte> := [];
    WroteNothing(b.Before(), b.Ahead());
    while it != []
      invariant b.Valid() && smallest < VARINT_LIMIT && Canonical(it) && NonEmpty(it)
      invariant it != [] ==> it[|it| - 1].end < smallest
      invariant done + AckBlocks(it, smallest) == AckBlocks(s, first)
      invariant Wrote(done, old(b.Before()), old(b.Ahead()), Ok(()), b.Before(), b.Ahead())
    {
      BlocksStep(it, smallest);
      var block := it[|it| - 1];
      ghost var rest := AckBlocks(it[..|it| - 1], block.start);
      ghost var both := Varint(smallest - block.end - 1) + Varint(block.end - 1 - block.start);
      ghost var w, a := b.Before(), b.Ahead();
      Regroup(done, both, rest, []);
      var put := PutTwo(smallest - block.end - 1, block.end - 1 - block.start, b);
      WroteBoth(done, both, old(b.Before()), old(b.Ahead()), w, a, put, b.Before(), b.Ahead());
      done := done + both;
      if put.Err? {
        FailedEarly(done, rest, old(b.Before()), old(b.Ahead()), put, b.Before(), b.Ahead());
        return put;
      }
      smallest := block.start;
      it := it[..|it| - 1];
    }
    NoBlocks(smallest);
    assert done + [] == done;
    r := Ok(());
  }

  method PutReset(code: nat, size: nat, b: Octets) returns (r: Result<()>)
    requires Fits(size) && b.Valid()
    modifies b`off, b.buf
    ensures b.Valid() && Wrote(BigEndian(code, 2) + Varint(size), old(b.Before()), old(b.Ahead()), r, b.Before(), b.Ahead())
  {
    hide Varint, BigEndian;
    var _ :- b.PutUint(code, 2);
    ghost var w, a := b.Before(), b.Ahead();
    r := b.PutVarint(size);
    WroteBoth(BigEndian(code, 2), Varint(size), old(b.Before()), old(b.Ahead()), w, a, r, b.Before(), b.Ahead());
  }

  method PutNewId(id: seq<byte>, token: seq<byte>, b: Octets) returns (r: Result<()>)
    requires b.Valid()
    modifies b`off, b.buf
    ensures b.Valid()
    ensures Wrote(BigEndian(|id| % 256, 1) + id + token, old(b.Before()), old(b.Ahead()), r, b.Before(), b.Ahead())
  {
    hide BigEndian;
    var _ :- b.PutUint(|id| % 256, 1);
    ghost var w, a := b.Before(), b.Ahead();
    var _ :- b.PutBytes(id);
    ghost var w', a' := b.Before(), b.Ahead();
    WroteBoth(BigEndian(|id| % 256, 1), id, old(b.Before()), old(b.Ahead()), w, a, Ok(()), w', a');
    r := b.PutBytes(token);
    WroteBoth(BigEndian(|id| % 256, 1) + id, token, old(b.Before()), old(b.Ahead()), w', a', r, b.Before(), b.Ahead());
  }

  method PutBody(f: Frame, b: Octets) returns (r: Result<()>)
    requires Printable(f) && !f.Padding? && !f.Fec? && b.Valid()
    modifies b`off, b.buf
    ensures b.Valid() && Wrote(Body(f), old(b.Before()), old(b.Ahead()), r, b.Before(), b.Ahead())
  {
    hide Varint, BigEndian, AckBlocks, Encode, Wrote;
    if f.Ack? {
      var n := |f.ranges| - 1;
      AckEncodeLen(f.packetTime, f.ackDelay, f.ranges);
      r := PutBlocks(f.ranges[..n], f.ranges[n].start, b);
    } else if f.ResetStream? {
      r := PutReset(f.resetCode, f.finalSize, b);
    } else if f.NewConnectionId? {
      r := PutNewId(f.connId, f.resetToken, b);
    } else {
      r := b.PutBytes(Data(f));
    }
  }

  /** A frame is written in full or reported as too long for the buffer. */
  method ToBytes(f: Frame, b: Octets) returns (r: Result<nat>)
    requires Printable(f) && b.Valid()
    modifies b`off, b.buf
    ensures b.Valid()
    ensures r == if |Encode(f)| <= |old(b.Ahead())| then Ok(|Encode(f)|) else Err(BufferTooShort)
    ensures r.Ok? ==> b.Before() == old(b.Before()) + Encode(f) && b.Ahead() == old(b.Ahead())[|Encode(f)|..]
  {
    hide Varint, Varints, Head, Body, Zeros;
    var before := b.Cap();
    if f.Padding? {
      var _ :- PutPadding(f.len, b);
    } else if f.Fec? {
      var _ :- b.PutBytes(Data(f));
    } else {
      HeadFits(f);
      var _ :- b.PutVarints(Head(f));
      ghost var w, a := b.Before(), b.Ahead();
      var put := PutBody(f, b);
      WroteBoth(Varints(Head(f)), Body(f), old(b.Before()), old(b.Ahead()), w, a, put, b.Before(), b.Ahead());
      var _ :- put;
    }
    r := Ok(before - b.Cap());
  }

  // ---------- from_bytes ----------

  method ParseAck(b: Octets) returns (r: Result<Frame>)
    requires b.Valid()
    modifies b`off
    ensures b.Valid() && Reads(DecodeAck(old(b.Ahead())), r, b.Ahead())
  {
    hide ReadVarint, ReadVarints, Inserted;
    var v :- b.GetVarints(5);
    var largest, block := v[0], v[4];
    if largest < block {
      return Err(InvalidFrame);
    }
    var ranges :- ParseBlocks(v[3], largest - block, largest, b);
    r := Ok(Ack(v[1], v[2], ranges));
  }

  /** The loop over the blocks of an ACK frame inserts range after range. */
  method ParseBlocks(count: nat, start: nat, largest: nat, b: Octets) returns (r: Result<seq<Range>>)
    requires start <= largest && b.Valid()
    modifies b`off
    ensures b.Valid()
    ensures Reads(DecodeBlocks(old(b.Ahead()), count, start, Inserted([], Range(start, largest + 1))), r, b.Ahead())
  {
    hide ReadVarint, Inserted, Canonical;
    var smallest := start;
    var ranges := new RangeSet();
    ranges.Insert(Range(start, largest + 1));
    ghost var all := DecodeBlocks(b.Ahead(), count, start, ranges.inner);
    for i := 0 to count
      invariant b.Valid() && ranges.Valid()
      invariant DecodeBlocks(b.Ahead(), count - i, smallest, ranges.inner) == all
    {
      var gap :- b.GetVarint();
      if smallest < 2 + gap {
        return Err(InvalidFrame);
      }
      var top := smallest - gap - 2;
      var block :- b.GetVarint();
      if top < block {
        return Err(InvalidFrame);
      }
      smallest := top - block;
      ranges.Insert(Range(smallest, top + 1));
    }
    r := Ok(ranges.inner);
  }

  method ParseStream(ty: nat, b: Octets) returns (r: Result<Frame>)
    requires b.Valid()
    modifies b`off
    ensures b.Valid() && Reads(DecodeStream(ty, old(b.Ahead())), r, b.Ahead())
  {
    hide ReadVarint;
    var id :- b.GetVarint();
    var off: nat := 0;
    if ty / 4 % 2 == 1 {
      off :- b.GetVarint();
    }
    var len: nat := b.Cap();
    if ty / 2 % 2 == 1 {
      len :- b.GetVarint();
    }
    if off + len >= VARINT_LIMIT {
      return Err(InvalidFrame);
    }
    var data :- b.GetBytes(len);
    r := Ok(Stream(id, RangeBuf(data, off, ty % 2 == 1)));
  }

  method ParseReset(b: Octets) returns (r: Result<Frame>)
    requires b.Valid()
    modifies b`off
    ensures b.Valid() && Reads(DecodeReset(old(b.Ahead())), r, b.Ahead())
  {
    hide ReadVarint, Value;
    var id :- b.GetVarint();
    var code :- b.GetUint(2);
    var size :- b.GetVarint();
    r := Ok(ResetStream(id, code, size));
  }

  method ParseNewId(b: Octets) returns (r: Result<Frame>)
    requires b.Valid()
    modifies b`off
    ensures b.Valid() && Reads(DecodeNewId(old(b.Ahead())), r, b.Ahead())
  {
    hide ReadVarints, Value;
    var v :- b.GetVarints(2);
    var len :- b.GetUint(1);
    var id :- b.GetBytes(len);
    var token :- b.GetBytes(16);
    r := Ok(NewConnectionId(v[0], v[1], id, token));
  }

  /** Padding goes on for as long as the next byte is zero. */
  method ParsePadding(b: Octets) returns (r: Result<Frame>)
    requires b.Valid()
    modifies b`off
    ensures b.Valid()
    ensures var s := old(b.Ahead()); r == Ok(Padding(1 + LeadingZeros(s))) && b.Ahead() == s[LeadingZeros(s)..]
  {
    hide Value;
    var len := 1;
    var next := b.Peek();
    ghost var s := b.Ahead();
    while next == Ok(0)
      invariant b.Valid() && next == if b.Ahead() == [] then Err(BufferTooShort) else Ok(b.Ahead()[0])
      invariant 1 <= len <= 1 + |s| && b.Ahead() == s[len - 1..]
      invariant LeadingZeros(s) == len - 1 + LeadingZeros(b.Ahead())
      decreases |b.Ahead()|
    {
      var zero := b.GetUint(1);
      len := len + 1;
      next := b.Peek();
    }
    r := Ok(Padding(len));
  }

  method ParseSized(n: nat, b: Octets) returns (r: Result<(seq<nat>, seq<byte>)>)
    requires n > 0 && b.Valid()
    modifies b`off
    ensures b.Valid()
    ensures match ReadSized(old(b.Ahead()), n)
            case Ok(p) => r == Ok((p.0.value, p.1)) && b.Ahead() == p.0.rest
            case Err(e) => r == Err(e)
  {
    hide ReadVarints;
    var v :- b.GetVarints(n);
    var d :- b.GetBytes(v[n - 1]);
    r := Ok((v, d));
  }

  method ParseBody(ty: nat, b: Octets) returns (r: Result<Frame>)
    requires b.Valid()
    modifies b`off
    ensures b.Valid() && Reads(DecodeBody(ty, old(b.Ahead())), r, b.Ahead())
  {
    hide ReadVarints, DecodeStream, DecodeAck, DecodeReset, DecodeNewId, ReadSized, FromFields;
    var fields := FieldsOf(ty);
    if fields.Some? {
      var v :- b.GetVarints(fields.value);
      return Ok(FromFields(ty, v));
    }
    if 0x08 <= ty <= 0x0f {
      r := ParseStream(ty, b);
      return;
    }
    match ty {
      case 0x00 => r := ParsePadding(b);
      case 0x01 => r := Ok(Ping);
      case 0x02 => r := ParseAck(b);
      case 0x04 => r := ParseReset(b);
      case 0x06 =>
        var p :- ParseSized(2, b);
        r := Ok(Crypto(RangeBuf(p.1, p.0[0], false)));
      case 0x07 =>
        var p :- ParseSized(1, b);
        r := Ok(NewToken(p.1));
      case 0x18 => r := ParseNewId(b);
      case 0x1a =>
        var d :- b.GetBytes(8);
        r := Ok(PathChallenge(d));
      case 0x1b =>
        var d :- b.GetBytes(8);
        r := Ok(PathResponse(d));
      case 0x1c =>
        var p :- ParseSized(3, b);
        r := Ok(ConnectionClose(p.0[0], p.0[1], p.1));
      case 0x1d =>
        var p :- ParseSized(2, b);
        r := Ok(ApplicationClose(p.0[0], p.1));
      case 0x1e => r := Ok(HandshakeDone);
      case _ => r := Err(InvalidFrame);
    }
  }

  method FromBytes(b: Octets, pkt: PacketType) returns (r: Result<Frame>)
    requires b.Valid()
    modifies b`off
    ensures b.Valid() && Reads(Decode(old(b.Ahead()), pkt), r, b.Ahead())
  {
    hide ReadVarint, DecodeBody, Allowed;
    var ty :- b.GetVarint();
    var frame :- ParseBody(ty, b);
    if !Allowed(pkt, frame) {
      return Err(InvalidPacket);
    }
    r := Ok(frame);
  }

  /** The loop that parses the frames of a payload. */
  method ParsePayload(b: Octets, pkt: PacketType) returns (r: Result<seq<Frame>>)
    requires b.Valid()
    modifies b`off
    ensures b.Valid() && r == DecodeAll(old(b.Ahead()), pkt)
  {
    hide Decode;
    var frames: seq<Frame> := [];
    ghost var all := DecodeAll(b.Ahead(), pkt);
    assert all.Ok? ==> [] + all.value == all.value;
    while b.Cap() > 0
      invariant b.Valid()
      invariant all == Behind(frames, DecodeAll(b.Ahead(), pkt))
      decreases |b.Ahead()|
    {
      BehindStep(frames, b.Ahead(), pkt);
      var frame :- FromBytes(b, pkt);
      frames := frames + [frame];
    }
    assert b.Ahead() == [];
    assert frames + [] == frames;
    r := Ok(frames);
  }

  /** The frames parsed so far in front of what the rest parses to. */
  function Behind(fs: seq<Frame>, r: Result<seq<Frame>>): Result<seq<Frame>> {
    if r.Ok? then Ok(fs + r.value) else r
  }

  lemma BehindStep(fs: seq<Frame>, s: seq<byte>, pkt: PacketType)
    requires s != []
    ensures match Decode(s, pkt)
            case Ok(p) => Behind(fs, DecodeAll(s, pkt)) == Behind(fs + [p.value], DecodeAll(p.rest, pkt))
            case Err(e) => Behind(fs, DecodeAll(s, pkt)) == Err(e)
  {
    hide Decode;
    if Decode(s, pkt).Ok? {
      var p := Decode(s, pkt).value;
      var q := DecodeAll(p.rest, pkt);
      if q.Ok? {
        assert fs + ([p.value] + q.value) == fs + [p.value] + q.value;
      }
    }
  }
}
