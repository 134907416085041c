/** Whole packet payloads: frames printed back to back and the loop that parses them
    (src/lib.rs, `recv_single`). */
module FramePayload {
  import opened Prelude
  import opened FrameTypes
  import opened OctetCursor
  import opened FrameSpec
  import opened FrameRoundTrip

  ghost predicate AllWellFormed(fs: seq<Frame>) {
    forall i :: 0 <= i < |fs| ==> WellFormed(fs[i])
  }

  predicate AllAllowed(fs: seq<Frame>, pkt: PacketType) {
    forall i :: 0 <= i < |fs| ==> Allowed(pkt, fs[i])
  }

  ghost function EncodeAll(fs: seq<Frame>): seq<byte>
    requires AllWellFormed(fs)
  {
    if fs == [] then [] else Encode(fs[0]) + EncodeAll(fs[1..])
  }

  function DecodeAll(s: seq<byte>, pkt: PacketType): Result<seq<Frame>>
    decreases |s|
  {
    if s == [] then Ok([])
    else
      var p :- Decode(s, pkt);
      var q :- DecodeAll(p.rest, pkt);
      Ok([p.value] + q)
  }

  function MergedInto(f: Frame, rest: seq<Frame>): seq<Frame> {
    if !f.Padding? then [f] + rest
    else if f.len == 0 then rest
    else if rest != [] && rest[0].Padding? then [Padding(f.len + rest[0].len)] + rest[1..]
    else [f] + rest
  }

  /** What a payload parses to: padding frames that were printed next to each other come
      back as one, and empty ones not at all. */
  function Merged(fs: seq<Frame>): seq<Frame> {
    if fs == [] then [] else MergedInto(fs[0], Merged(fs[1..]))
  }

  /** No empty and no adjacent padding. */
  predicate Tidy(fs: seq<Frame>) {
    && (forall i :: 0 <= i < |fs| && fs[i].Padding? ==> fs[i].len > 0)
    && (forall i :: 0 < i < |fs| && fs[i].Padding? ==> !fs[i - 1].Padding?)
  }

  lemma {:induction false} MergedIsTidy(fs: seq<Frame>)
    ensures Tidy(Merged(fs))
  {
    if fs != [] {
      MergedIsTidy(fs[1..]);
    }
  }

  lemma {:induction false} TidyIsMerged(fs: seq<Frame>)
    requires Tidy(fs)
    ensures Merged(fs) == fs
  {
    if fs != [] {
      TidyIsMerged(fs[1..]);
      assert fs == [fs[0]] + fs[1..];
    }
  }

  // ---------- what a payload starts with ----------

  lemma ShortType(s: seq<byte>)
    requires s != [] && s[0] < 64
    ensures ReadVarint(s) == Ok(Parsed(s[0] as nat, s[1..]))
  {
    var v: nat := s[0];
    assert BigEndian(v, 1) == BigEndian(v / 256, 0) + [v % 256];
    assert Varint(v) == [s[0]];
    assert s == Varint(v) + s[1..];
    VarintRoundTrip(v, s[1..]);
  }

  lemma {:induction false} StartsShort(fs: seq<Frame>)
    requires AllWellFormed(fs)
    ensures EncodeAll(fs) != [] ==> EncodeAll(fs)[0] < 64
  {
    if fs != [] {
      var f := fs[0];
      if f.Padding? {
        StartsShort(fs[1..]);
        assert EncodeAll(fs)[0..] == EncodeAll(fs);
      } else {
        HeadFits(f);
        assert Varints(Head(f)) == Varint(Head(f)[0]) + Varints(Head(f)[1..]);
        FirstByteSmall(Head(f)[0]);
        assert EncodeAll(fs)[0] == Varint(Head(f)[0])[0];
      }
    }
  }

  lemma PaddingType(ty: nat, s: seq<byte>)
    requires DecodeBody(ty, s).Ok?
    ensures DecodeBody(ty, s).value.value.Padding? <==> ty == 0
  {
  }

  /** The first frame is padding exactly when the first byte is zero. */
  lemma FirstIsPadding(s: seq<byte>, pkt: PacketType, fs: seq<Frame>)
    requires s != [] ==> s[0] < 64
    requires DecodeAll(s, pkt) == Ok(fs)
    ensures (fs != [] && fs[0].Padding?) <==> LeadingZeros(s) > 0
  {
    hide ReadVarint, DecodeBody;
    if s != [] {
      ShortType(s);
      PaddingType(s[0], s[1..]);
    }
  }

  // ---------- padding in front of a payload ----------

  /** `f` in front of what the rest parses to. */
  function InFront(f: Frame, r: Result<seq<Frame>>): Result<seq<Frame>> {
    if r.Ok? then Ok([f] + r.value) else r
  }

  lemma {:induction false} ZerosSplit(s: seq<byte>)
    ensures s == Zeros(LeadingZeros(s)) + s[LeadingZeros(s)..]
    ensures LeadingZeros(s[LeadingZeros(s)..]) == 0
  {
    if s != [] && s[0] == 0 {
      ZerosSplit(s[1..]);
      var z := LeadingZeros(s[1..]);
      assert s == [0] + s[1..];
      assert Zeros(1 + z) == [0] + Zeros(z);
      assert s[1 + z..] == s[1..][z..];
    } else {
      assert Zeros(0) + s[0..] == s;
    }
  }

  lemma PaddingInFront(n: nat, t: seq<byte>, pkt: PacketType)
    requires n > 0
    ensures var z := LeadingZeros(t);
            && DecodeAll(Zeros(n) + t, pkt) == InFront(Padding(n + z), DecodeAll(t[z..], pkt))
            && (z > 0 ==> DecodeAll(t, pkt) == InFront(Padding(z), DecodeAll(t[z..], pkt)))
  {
    hide Decode, Zeros, LeadingZeros;
    var z := LeadingZeros(t);
    PaddingRead(n, t, pkt);
    assert Zeros(n) + t != [];
    ZerosSplit(t);
    if z > 0 {
      PaddingRead(z, t[z..], pkt);
      assert t[z..][0..] == t[z..];
    }
  }

  // ---------- the round trip ----------

  lemma OtherInFront(f: Frame, t: seq<byte>, pkt: PacketType)
    requires WellFormed(f) && !f.Padding?
    ensures DecodeAll(Encode(f) + t, pkt) == if Allowed(pkt, f) then InFront(f, DecodeAll(t, pkt)) else Err(InvalidPacket)
  {
    hide Decode, Encode, WellFormed, Allowed;
    FrameComesBack(f, t, pkt);
    NotEmpty(f);
  }

  lemma NotEmpty(f: Frame)
    requires WellFormed(f) && !f.Padding?
    ensures Encode(f) != []
  {
    HeadFits(f);
    assert |Varints(Head(f))| >= VarintLen(Head(f)[0]);
  }

  /** Padding in front of a payload joins the padding that the payload starts with. */
  lemma PaddedPayload(f: Frame, t: seq<byte>, pkt: PacketType)
    requires f.Padding? && f.len > 0 && (t != [] ==> t[0] < 64)
    ensures DecodeAll(Zeros(f.len) + t, pkt)
         == match DecodeAll(t, pkt) case Ok(fs) => Ok(MergedInto(f, fs)) case Err(e) => Err(e)
  {
    hide Decode, Zeros, LeadingZeros;
    var z := LeadingZeros(t);
    PaddingInFront(f.len, t, pkt);
    assert t[0..] == t;
    if DecodeAll(t, pkt).Ok? {
      FirstIsPadding(t, pkt, DecodeAll(t, pkt).value);
      if z > 0 {
        var tail := DecodeAll(t[z..], pkt).value;
        assert ([Padding(z)] + tail)[1..] == tail;
      }
    }
  }

  /** Frames printed back to back parse to themselves, padding merged, in every packet
      that may carry them all; a single frame that is not allowed refuses the payload. */
  lemma {:induction false} PayloadComesBack(fs: seq<Frame>, pkt: PacketType)
    requires AllWellFormed(fs)
    ensures DecodeAll(EncodeAll(fs), pkt) == if AllAllowed(fs, pkt) then Ok(Merged(fs)) else Err(InvalidPacket)
  {
    hide Decode, Encode, WellFormed;
    if fs != [] {
      var f, rest := fs[0], fs[1..];
      PayloadComesBack(rest, pkt);
      assert fs == [f] + rest;
      assert AllAllowed(fs, pkt) <==> Allowed(pkt, f) && AllAllowed(rest, pkt);
      if !f.Padding? {
        OtherInFront(f, EncodeAll(rest), pkt);
      } else if f.len == 0 {
        assert EncodeAll(fs) == EncodeAll(rest) by {
          EmptyPadding(f);
        }
      } else {
        StartsShort(rest);
        PaddedPayload(f, EncodeAll(rest), pkt);
        PaddingPrinted(f);
      }
    }
  }

  lemma PaddingPrinted(f: Frame)
    requires f.Padding?
    ensures WellFormed(f) && Encode(f) == Zeros(f.len)
  {
  }

  lemma EmptyPadding(f: Frame)
    requires f == Padding(0)
    ensures WellFormed(f) && Encode(f) == []
  {
  }

  /** A short packet gives back exactly the frames that were printed if and only if there
      is no empty and no adjacent padding among them. */
  lemma SequenceComesBackIff(fs: seq<Frame>)
    requires AllWellFormed(fs)
    ensures DecodeAll(EncodeAll(fs), Short) == Ok(fs) <==> Tidy(fs)
  {
    PayloadComesBack(fs, Short);
    MergedIsTidy(fs);
    if Tidy(fs) {
      TidyIsMerged(fs);
    }
  }

  // ---------- what the parser lets through ----------

  lemma FieldsWellFormed(ty: nat, s: seq<byte>)
    requires FieldsOf(ty).Some? && DecodeBody(ty, s).Ok?
    ensures WellFormed(DecodeBody(ty, s).value.value)
  {
    hide ReadVarints;
    VarintsInRange(s, FieldsOf(ty).value);
  }

  lemma SizedWellFormed(ty: nat, s: seq<byte>)
    requires ty in {0x06, 0x07, 0x1c, 0x1d} && DecodeBody(ty, s).Ok?
    ensures WellFormed(DecodeBody(ty, s).value.value)
  {
    hide ReadVarints;
    VarintsInRange(s, if ty == 0x07 then 1 else if ty == 0x1c then 3 else 2);
  }

  lemma StreamWellFormed(ty: nat, s: seq<byte>)
    requires DecodeStream(ty, s).Ok?
    ensures WellFormed(DecodeStream(ty, s).value.value)
  {
    hide ReadVarint;
    VarintShortest(s);
  }

  lemma ResetWellFormed(s: seq<byte>)
    requires DecodeReset(s).Ok?
    ensures WellFormed(DecodeReset(s).value.value)
  {
    hide ReadVarint, Value;
    var id := ReadVarint(s).value;
    var code := ReadBytes(id.rest, 2).value;
    VarintShortest(s);
    VarintShortest(code.rest);
    BigEndianOfValue(code.value);
    Powers();
  }

  lemma NewIdWellFormed(s: seq<byte>)
    requires DecodeNewId(s).Ok?
    ensures WellFormed(DecodeNewId(s).value.value)
  {
    hide ReadVarints, Value;
    VarintsInRange(s, 2);
    BigEndianOfValue(ReadBytes(ReadVarints(s, 2).value.rest, 1).value.value);
    Powers();
  }

  lemma BodyWellFormed(ty: nat, s: seq<byte>)
    requires DecodeBody(ty, s).Ok?
    ensures WellFormed(DecodeBody(ty, s).value.value)
  {
    hide ReadVarints, DecodeStream, DecodeAck, DecodeReset, DecodeNewId, ReadSized;
    if FieldsOf(ty).Some? {
      FieldsWellFormed(ty, s);
    } else if ty in {0x06, 0x07, 0x1c, 0x1d} {
      SizedWellFormed(ty, s);
    } else if 0x08 <= ty <= 0x0f {
      StreamWellFormed(ty, s);
    } else if ty == 0x02 {
      AckAccepted(s);
    } else if ty == 0x04 {
      ResetWellFormed(s);
    } else if ty == 0x18 {
      NewIdWellFormed(s);
    }
  }

  /** Some bytes parse to `f` exactly when it is a frame that the format can carry. */
  lemma ParsableIff(f: Frame)
    ensures (exists s, pkt :: Decode(s, pkt).Ok? && Decode(s, pkt).value.value == f)
       <==> WellFormed(f) && (f.Padding? ==> f.len > 0)
  {
    hide ReadVarint, DecodeBody, Encode;
    if s: seq<byte>, pkt :| Decode(s, pkt).Ok? && Decode(s, pkt).value.value == f {
      var ty := ReadVarint(s).value;
      BodyWellFormed(ty.value, ty.rest);
      PaddingCounts(ty.value, ty.rest);
    }
    if WellFormed(f) && (f.Padding? ==> f.len > 0) {
      FrameComesBack(f, [], Short);
      assert Decode(Encode(f) + [], Short).Ok?;
    }
  }

  lemma PaddingCounts(ty: nat, s: seq<byte>)
    requires DecodeBody(ty, s).Ok?
    ensures var f := DecodeBody(ty, s).value.value; f.Padding? ==> f.len > 0
  {
  }

  lemma {:induction false} PayloadWellFormed(s: seq<byte>, pkt: PacketType)
    ensures DecodeAll(s, pkt).Ok? ==>
              AllWellFormed(DecodeAll(s, pkt).value) && AllAllowed(DecodeAll(s, pkt).value, pkt)
    decreases |s|
  {
    hide ReadVarint, DecodeBody, WellFormed, Allowed;
    if s != [] && Decode(s, pkt).Ok? {
      var ty := ReadVarint(s).value;
      BodyWellFormed(ty.value, ty.rest);
      PayloadWellFormed(Decode(s, pkt).value.rest, pkt);
    }
  }

  /** Whatever bytes a peer sent: if they parse, the frames can be printed again, and
      parsing the print gives the same frames, padding merged. */
  lemma ParsedPrintsBack(s: seq<byte>, pkt: PacketType)
    ensures DecodeAll(s, pkt).Ok? ==>
              var fs := DecodeAll(s, pkt).value;
              AllWellFormed(fs) && DecodeAll(EncodeAll(fs), pkt) == Ok(Merged(fs))
  {
    hide Decode;
    PayloadWellFormed(s, pkt);
    if DecodeAll(s, pkt).Ok? {
      PayloadComesBack(DecodeAll(s, pkt).value, pkt);
    }
  }
}
