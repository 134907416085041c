/** Truncated packet numbers and the window that detects duplicates (src/packet.rs).

    Bit masks are written as arithmetic: `x & !(2^n - 1)` as `x / 2^n * 2^n`, and a
    bitmap as the set of its one bits. */
module PacketNumbers {
  import opened Prelude
  import opened OctetCursor

  const U8_MAX: nat := 0xFF
  const U16_MAX: nat := 0xFFFF
  const U32_MAX: nat := 0xFFFF_FFFF
  const TWO62: nat := 0x4000_0000_0000_0000

  // ---------- encoding and decoding ----------

  function PktNumLen(pn: nat): Result<nat> {
    if pn < U8_MAX then Ok(1)
    else if pn < U16_MAX then Ok(2)
    else if pn < U32_MAX then Ok(4)
    else Err(InvalidPacket)
  }

  /** `1 << (8 * len)` for the lengths a header can announce. */
  function Window(len: nat): (w: nat)
    requires 1 <= len <= 4
    ensures w % 2 == 0 && 0x100 <= w <= 0x1_0000_0000
  {
    if len == 1 then 0x100 else if len == 2 then 0x1_0000 else if len == 3 then 0x100_0000 else 0x1_0000_0000
  }

  function DecodePktNum(largest: nat, truncated: nat, len: nat): nat
    requires 1 <= len <= 4 && truncated < Window(len)
  {
    var expected := largest + 1;
    var win := Window(len);
    var half := win / 2;
    var candidate := expected / win * win + truncated;
    if candidate + half <= expected && candidate + win < TWO62 then candidate + win
    else if candidate > expected + half && candidate >= win then candidate - win
    else candidate
  }

  /** The length is the smallest of one, two and four bytes in which the number is below the
      largest value; numbers from 2^32 - 1 on have none. */
  lemma ShortestLength(pn: nat)
    ensures PktNumLen(pn).Err? <==> pn >= 0xFFFF_FFFF
    ensures PktNumLen(pn).Err? ==> PktNumLen(pn).error == InvalidPacket
    ensures PktNumLen(pn).Ok? ==>
              var len := PktNumLen(pn).value;
              len in {1, 2, 4} && pn < Window(len) - 1 && forall shorter :: shorter in {1, 2} && shorter < len ==> pn >= Window(shorter) - 1
  {
  }

  /** The example of section A.3 of RFC 9000. */
  lemma StandardExample()
    ensures DecodePktNum(0xa82f30ea, 0x9b32, 2) == 0xa82f9b32
  {
  }

  /** Where two numbers lie relative to the blocks of `win` numbers. */
  lemma Blocks(expected: nat, pn: nat, win: nat)
    requires win == 0x100 || win == 0x1_0000 || win == 0x100_0000 || win == 0x1_0000_0000
    ensures pn == pn / win * win + pn % win && 0 <= pn % win < win
    ensures expected == expected / win * win + expected % win && 0 <= expected % win < win
    ensures pn / win == expected / win ==> pn / win * win == expected / win * win
    ensures pn / win == expected / win + 1 ==> pn / win * win == expected / win * win + win
    ensures pn / win == expected / win - 1 ==> pn / win * win == expected / win * win - win
    ensures pn / win >= expected / win + 2 ==> pn / win * win >= expected / win * win + 2 * win
    ensures pn / win <= expected / win - 2 ==> pn / win * win <= expected / win * win - 2 * win
  {
    if win == 0x100 {
    } else if win == 0x1_0000 {
    } else if win == 0x100_0000 {
    } else {
    }
  }

  /** A packet number is recovered from its low bytes whenever it lies within half a
      window of the number expected next. */
  lemma DecodeExact(largest: nat, pn: nat, len: nat)
    requires 1 <= len <= 4 && pn < TWO62
    requires largest + 1 - Window(len) / 2 < pn <= largest + 1 + Window(len) / 2
    ensures DecodePktNum(largest, pn % Window(len), len) == pn
  {
    Blocks(largest + 1, pn, Window(len));
  }

  /** `encode_pkt_num` writes the whole number in the length that its size asks for. */
  method EncodePktNum(pn: nat, b: Octets) returns (r: Result<()>)
    requires b.Valid()
    modifies b`off, b.buf
    ensures b.Valid()
    ensures PktNumLen(pn).Err? ==> r == Err(InvalidPacket) && b.off == old(b.off) && b.buf[..] == old(b.buf[..])
    ensures PktNumLen(pn).Ok? ==>
              Wrote(BigEndian(pn, PktNumLen(pn).value), old(b.Before()), old(b.Ahead()), r, b.Before(), b.Ahead())
  {
    var len :- PktNumLen(pn);
    r := b.PutUint(pn, len);
  }

  lemma WrittenWhole(pn: nat)
    requires PktNumLen(pn).Ok?
    ensures var len := PktNumLen(pn).value;
            Value(BigEndian(pn, len)) == pn < Window(len)
  {
    Powers();
    ValueOfBigEndian(pn, PktNumLen(pn).value);
  }

  lemma Base(e: nat, win: nat)
    requires win == 0x100 || win == 0x1_0000 || win == 0x100_0000 || win == 0x1_0000_0000
    ensures var base := e / win * win; base <= e < base + win && (base == 0 || base == win || base >= 2 * win)
  {
    if win == 0x100 {
    } else if win == 0x1_0000 {
    } else if win == 0x100_0000 {
    } else {
    }
  }

  lemma WholeNumberBack(largest: nat, pn: nat, len: nat)
    requires 1 <= len <= 4 && pn < Window(len)
    ensures DecodePktNum(largest, pn, len) == pn <==> largest + 1 < pn + Window(len) / 2
  {
    Base(largest + 1, Window(len));
  }

  /** The receiver gets back what `encode_pkt_num` wrote exactly when the packet is late by
      less than half a window; how far it is ahead does not matter. */
  lemma RoundTripIff(largest: nat, pn: nat)
    requires PktNumLen(pn).Ok?
    ensures var len := PktNumLen(pn).value;
            && Value(BigEndian(pn, len)) < Window(len)
            && (DecodePktNum(largest, Value(BigEndian(pn, len)), len) == pn <==> largest + 1 < pn + Window(len) / 2)
  {
    hide BigEndian, Value, DecodePktNum;
    WrittenWhole(pn);
    WholeNumberBack(largest, pn, PktNumLen(pn).value);
  }

  /** Packet 10, written in one byte, is taken for packet 266 after packet 200. */
  lemma LatePacketMisread()
    ensures PktNumLen(10) == Ok(1) && Value(BigEndian(10, 1)) == 10 && DecodePktNum(200, 10, 1) == 266
  {
    WrittenWhole(10);
  }

  /** However the header is forged, the decoded number is less than 2^32 beyond the largest
      one received. */
  lemma DecodeBounded(largest: nat, truncated: nat, len: nat)
    requires 1 <= len <= 4 && truncated < Window(len)
    ensures DecodePktNum(largest, truncated, len) <= Max(largest + 1 + Window(len) / 2, Window(len) - 1)
  {
    Blocks(largest + 1, truncated, Window(len));
  }

  /** Which of the numbers with these low bytes decoding picks: none is closer to the one
      expected next, away from both ends of the number space. */
  lemma DecodeNearest(largest: nat, truncated: nat, len: nat, other: nat)
    requires 1 <= len <= 4 && truncated < Window(len)
    requires Window(len) <= largest + 1 < TWO62 - 2 * Window(len)
    requires other % Window(len) == truncated
    ensures var pn, e := DecodePktNum(largest, truncated, len), largest + 1;
            && pn % Window(len) == truncated
            && Max(pn - e, e - pn) <= Max(other - e, e - other)
  {
    DecodeResidue(largest, truncated, len);
    var e, win, pn := largest + 1, Window(len), DecodePktNum(largest, truncated, len);
    var base := e / win * win;
    Base(e, win);
    BlockOf(e, other, win, truncated);
    assert pn == if base + truncated + win / 2 <= e then base + truncated + win
                 else if base + truncated > e + win / 2 then base + truncated - win else base + truncated;
    hide DecodePktNum, Window;
    NearestOf(e, base, win, truncated, other, pn);
  }

  /** The block of a number with these low bytes. */
  lemma BlockOf(e: nat, other: nat, win: nat, t: nat)
    requires win == 0x100 || win == 0x1_0000 || win == 0x100_0000 || win == 0x1_0000_0000
    requires other % win == t
    ensures var base, start := e / win * win, other - t;
            start in {base - win, base, base + win} || start >= base + 2 * win || start <= base - 2 * win
  {
    Blocks(e, other, win);
  }

  /** The choice, in terms of the block of `win` numbers that begins at `base`. */
  lemma NearestOf(e: nat, base: nat, win: nat, t: nat, other: int, pn: int)
    requires win % 2 == 0 && base <= e < base + win && t < win
    requires other - t in {base - win, base, base + win} || other - t >= base + 2 * win || other - t <= base - 2 * win
    requires pn == if base + t + win / 2 <= e then base + t + win
                   else if base + t > e + win / 2 then base + t - win else base + t
    ensures Max(pn - e, e - pn) <= Max(other - e, e - other)
  {
  }

  /** The number decoded has the low bytes in question. */
  lemma DecodeResidue(largest: nat, truncated: nat, len: nat)
    requires 1 <= len <= 4 && truncated < Window(len)
    ensures DecodePktNum(largest, truncated, len) % Window(len) == truncated
  {
    var win := Window(len);
    ResidueOf((largest + 1) / win, win, truncated);
    ResidueOf((largest + 1) / win + 1, win, truncated);
    ResidueOf((largest + 1) / win - 1, win, truncated);
  }

  lemma ResidueOf(k: int, win: nat, t: nat)
    requires win == 0x100 || win == 0x1_0000 || win == 0x100_0000 || win == 0x1_0000_0000
    requires t < win
    ensures (k * win + t) % win == t
    ensures (k + 1) * win == k * win + win && (k - 1) * win == k * win - win
  {
    if win == 0x100 {
    } else if win == 0x1_0000 {
    } else if win == 0x100_0000 {
    } else {
    }
  }

  // ---------- the window of received numbers ----------

  /** The 128-bit map is the set of its one bits; bit `i` stands for number
      `Upper() - i`. */
  datatype Seen = Seen(lower: nat, bits: set<nat>) {
    function Upper(): int {
      SaturatingAdd(lower, 128) - 1
    }
  }

  /** `checked_shl(diff as u32).unwrap_or(0)`: the count is truncated to 32 bits, and a
      count of 128 or more clears the map. */
  function ShiftLeft(bits: set<nat>, diff: nat): set<nat> {
    var count := diff % 0x1_0000_0000;
    if count >= 128 then {} else set b | b in bits && b + count < 128 :: b + count
  }

  function Insert(w: Seen, pn: nat): Seen {
    if pn < w.lower then w
    else
      var v := if pn > w.Upper() then Seen(w.lower + (pn - w.Upper()), ShiftLeft(w.bits, pn - w.Upper())) else w;
      if v.Upper() >= pn then v.(bits := v.bits + {v.Upper() - pn}) else v
  }

  predicate Contains(w: Seen, pn: nat) {
    if pn > w.Upper() then false
    else if pn < w.lower then true
    else w.Upper() - pn in w.bits
  }

  class PktNumWindow {
    var lower: nat
    var window: set<nat>

    function State(): Seen
      reads this
    {
      Seen(lower, window)
    }

    constructor ()
      ensures State() == Seen(0, {})
    {
      lower, window := 0, {};
    }

    method Record(pn: nat)
      requires lower <= U64_MAX && pn < U64_MAX
      modifies this
      ensures State() == Insert(old(State()), pn) && lower <= U64_MAX
    {
      if pn < lower {
        return;
      }
      if pn > State().Upper() {
        var diff := pn - State().Upper();
        lower := lower + diff;
        window := ShiftLeft(window, diff);
      }
      window := window + {State().Upper() - pn};
    }

    method Query(pn: nat) returns (b: bool)
      ensures b <==> Contains(State(), pn)
    {
      if pn > State().Upper() {
        return false;
      }
      if pn < lower {
        return true;
      }
      b := State().Upper() - pn in window;
    }
  }

  /** The receive state of one packet number space: the window, the largest number
      received, and the numbers recorded so far. */
  datatype Space = Space(seen: Seen, largest: nat, recorded: set<nat>)

  /** A packet that decrypts. `aborted`: one of its frames answers with an error, so that the
      packet is not recorded although the frames before that one were processed. With `Done`
      the connection stays open. */
  datatype Arrival = Arrival(truncated: nat, len: nat, aborted: bool)

  predicate WellFormed(a: Arrival) {
    1 <= a.len <= 4 && a.truncated < Window(a.len)
  }

  function NumberOf(s: Space, a: Arrival): nat
    requires WellFormed(a)
  {
    DecodePktNum(s.largest, a.truncated, a.len)
  }

  /** The packet passes the duplicate check: its frames are processed. */
  predicate LetThrough(s: Space, a: Arrival)
    requires WellFormed(a)
  {
    !Contains(s.seen, NumberOf(s, a))
  }

  /** One packet: dropped as a duplicate, given up at one of its frames, or recorded. */
  function Arrived(s: Space, a: Arrival): Space
    requires WellFormed(a)
  {
    var pn := NumberOf(s, a);
    if !LetThrough(s, a) || a.aborted then s
    else Space(Insert(s.seen, pn), Max(s.largest, pn), s.recorded + {pn})
  }

  ghost predicate SpaceInv(s: Space) {
    && s.largest < TWO62
    && s.seen.lower + 127 == Max(127, s.largest)
    && (forall b :: b in s.seen.bits ==> b < 128)
    && (forall x :: x in s.recorded ==> x <= s.largest)
    && (forall x: nat :: s.seen.lower <= x <= s.seen.lower + 127 ==>
          (s.seen.lower + 127 - x in s.seen.bits <==> x in s.recorded))
  }

  /** The window answers true exactly for the numbers recorded and for those below its
      lower end; the jump it makes is too small for the truncated shift count to
      matter. */
  lemma ArrivalKeeps(s: Space, a: Arrival)
    requires SpaceInv(s) && WellFormed(a) && NumberOf(s, a) < TWO62
    ensures SpaceInv(Arrived(s, a))
    ensures NumberOf(s, a) - s.seen.Upper() < 0x1_0000_0000
    ensures forall x: nat :: Contains(s.seen, x) <==> x in s.recorded || x < s.seen.lower
  {
    var pn := NumberOf(s, a);
    DecodeBounded(s.largest, a.truncated, a.len);
    hide DecodePktNum;
    if pn > s.seen.Upper() && !a.aborted {
      WindowMoves(s, pn);
    }
  }

  /** A number beyond the window moves it. */
  lemma WindowMoves(s: Space, pn: nat)
    requires SpaceInv(s) && s.seen.Upper() < pn < TWO62 && pn - s.seen.Upper() < 0x1_0000_0000
    ensures SpaceInv(Space(Insert(s.seen, pn), pn, s.recorded + {pn})) && s.largest <= pn
  {
    var diff := pn - s.seen.Upper();
    var shifted, t := ShiftLeft(s.seen.bits, diff), Insert(s.seen, pn);
    assert diff % 0x1_0000_0000 == diff;
    forall x: nat | t.lower <= x <= t.lower + 127
      ensures t.lower + 127 - x in t.bits <==> x in s.recorded + {pn}
    {
      var i := t.lower + 127 - x;
      assert i in shifted <==> i >= diff && i - diff in s.seen.bits;
    }
  }

  ghost predicate Session(ss: seq<Space>, packets: seq<Arrival>) {
    && |ss| == |packets| + 1 && ss[0] == Space(Seen(0, {}), 0, {})
    && (forall k :: 0 <= k < |packets| ==> WellFormed(packets[k]) && NumberOf(ss[k], packets[k]) < TWO62)
    && (forall k :: 0 <= k < |packets| ==> ss[k + 1] == Arrived(ss[k], packets[k]))
  }

  lemma {:induction false} SessionInv(ss: seq<Space>, packets: seq<Arrival>, k: nat)
    requires Session(ss, packets) && k < |ss|
    ensures SpaceInv(ss[k])
  {
    if k > 0 {
      SessionInv(ss, packets, k - 1);
      ArrivalKeeps(ss[k - 1], packets[k - 1]);
    }
  }

  /** Packet `j` of the session carried number `pn` and was processed to its end. */
  ghost predicate Processed(ss: seq<Space>, packets: seq<Arrival>, j: nat, pn: nat)
    requires Session(ss, packets) && j < |packets|
  {
    NumberOf(ss[j], packets[j]) == pn && LetThrough(ss[j], packets[j]) && !packets[j].aborted
  }

  /** The numbers recorded are those of the packets processed to their end. */
  lemma {:induction false} RecordedAre(ss: seq<Space>, packets: seq<Arrival>, k: nat, pn: nat)
    requires Session(ss, packets) && k < |ss|
    ensures pn in ss[k].recorded <==> exists j :: 0 <= j < k && Processed(ss, packets, j, pn)
  {
    if k > 0 {
      RecordedAre(ss, packets, k - 1, pn);
      assert ss[k] == Arrived(ss[k - 1], packets[k - 1]);
      assert Processed(ss, packets, k - 1, pn) ==> pn in ss[k].recorded;
      if pn in ss[k].recorded && pn !in ss[k - 1].recorded {
        assert Processed(ss, packets, k - 1, pn);
      }
    }
  }

  /** Over a whole session no packet number is processed to its end twice. */
  lemma NoNumberTwice(ss: seq<Space>, packets: seq<Arrival>, j: nat, k: nat, pn: nat)
    requires Session(ss, packets) && j < k < |packets|
    requires Processed(ss, packets, j, pn)
    ensures !Processed(ss, packets, k, pn)
  {
    SessionInv(ss, packets, k);
    ArrivalKeeps(ss[k], packets[k]);
    RecordedAre(ss, packets, k, pn);
  }

  /** Exactly when a packet is let through: its number lies in the window or above, and every
      earlier packet with this number that was let through was given up at a frame. */
  lemma LetThroughIff(ss: seq<Space>, packets: seq<Arrival>, k: nat)
    requires Session(ss, packets) && k < |packets|
    ensures var pn := NumberOf(ss[k], packets[k]);
            LetThrough(ss[k], packets[k]) <==>
              && pn + 127 >= Max(127, ss[k].largest)
              && forall j :: 0 <= j < k && NumberOf(ss[j], packets[j]) == pn && LetThrough(ss[j], packets[j]) ==>
                   packets[j].aborted
  {
    var pn := NumberOf(ss[k], packets[k]);
    SessionInv(ss, packets, k);
    ArrivalKeeps(ss[k], packets[k]);
    RecordedAre(ss, packets, k, pn);
    assert forall j :: 0 <= j < k ==>
             (Processed(ss, packets, j, pn) <==>
               NumberOf(ss[j], packets[j]) == pn && LetThrough(ss[j], packets[j]) && !packets[j].aborted);
  }

  /** A packet given up at a frame and repeated by the network is let through twice, so that
      the frames before that one are processed twice. */
  lemma AbortedPacketTwice(pn: nat)
    requires pn < 127
    ensures var start, first, again := Space(Seen(0, {}), 0, {}), Arrival(pn, 1, true), Arrival(pn, 1, false);
            && Session([start, start, Arrived(start, again)], [first, again])
            && NumberOf(start, first) == NumberOf(start, again) == pn
            && LetThrough(start, first) && LetThrough(Arrived(start, first), again)
  {
    var start, first, again := Space(Seen(0, {}), 0, {}), Arrival(pn, 1, true), Arrival(pn, 1, false);
    assert DecodePktNum(0, pn, 1) == pn;
    var ss, packets := [start, start, Arrived(start, again)], [first, again];
    assert ss[1] == Arrived(ss[0], packets[0]) && ss[2] == Arrived(ss[1], packets[1]);
  }

  /** A number not yet recorded is recorded exactly when it is not below the window and the
      packet is processed to its end. */
  lemma FreshAcceptedIff(ss: seq<Space>, packets: seq<Arrival>, k: nat)
    requires Session(ss, packets) && k < |packets|
    ensures var s, pn := ss[k], NumberOf(ss[k], packets[k]);
            pn !in s.recorded ==>
              (pn in ss[k + 1].recorded <==> pn + 127 >= Max(127, s.largest) && !packets[k].aborted)
  {
    SessionInv(ss, packets, k);
    ArrivalKeeps(ss[k], packets[k]);
  }
}
