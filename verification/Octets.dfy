/** Big-endian integers, variable-length integers and the cursor that reads and writes
    them (src/octets.rs). */
module OctetCursor {
  import opened Prelude

  /** The first value that a variable-length integer cannot hold. */
  const VARINT_LIMIT: nat := 0x4000_0000_0000_0000

  /** A value read from the front of a byte sequence, and what follows it. */
  datatype Parsed<+T> = Parsed(value: T, rest: seq<byte>)

  // ---------- fixed-size integers ----------

  function Power(n: nat): (p: nat)
    ensures p > 0
  {
    if n == 0 then 1 else 256 * Power(n - 1)
  }

  /** The low `n` bytes of `v`, most significant first. */
  function BigEndian(v: nat, n: nat): (s: seq<byte>)
    ensures |s| == n
  {
    if n == 0 then [] else BigEndian(v / 256, n - 1) + [v % 256]
  }

  function Value(s: seq<byte>): nat {
    if s == [] then 0 else Value(s[..|s| - 1]) * 256 + s[|s| - 1]
  }

  lemma {:induction false} ValueOfBigEndian(v: nat, n: nat)
    requires v < Power(n)
    ensures Value(BigEndian(v, n)) == v
  {
    if n > 0 {
      ValueOfBigEndian(v / 256, n - 1);
      assert BigEndian(v, n)[..n - 1] == BigEndian(v / 256, n - 1);
    }
  }

  lemma {:induction false} BigEndianOfValue(s: seq<byte>)
    ensures Value(s) < Power(|s|)
    ensures BigEndian(Value(s), |s|) == s
  {
    if s != [] {
      BigEndianOfValue(s[..|s| - 1]);
      assert Value(s) / 256 == Value(s[..|s| - 1]) && Value(s) % 256 == s[|s| - 1];
    }
  }

  /** The first byte is the most significant one. */
  lemma {:induction false} FirstByte(s: seq<byte>)
    requires s != []
    ensures s[0] * Power(|s| - 1) <= Value(s)
    ensures Value(s) < (s[0] + 1) * Power(|s| - 1)
  {
    var n := |s|;
    if n > 1 {
      FirstByte(s[..n - 1]);
      assert s[0] * Power(n - 1) == 256 * (s[0] * Power(n - 2));
      assert (s[0] + 1) * Power(n - 1) == 256 * ((s[0] + 1) * Power(n - 2));
    } else {
      assert Value(s) == Value(s[..0]) * 256 + s[0];
    }
  }

  lemma FactorBound(a: nat, b: nat, p: nat)
    requires a * p < b * p
    ensures a < b
  {
    assert (b - a) * p > 0;
  }

  lemma Powers()
    ensures Power(0) == 1 && Power(1) == 0x100 && Power(2) == 0x1_0000 && Power(3) == 0x100_0000
    ensures Power(4) == 0x1_0000_0000 && Power(7) == 0x100_0000_0000_0000
    ensures Power(8) == 0x1_0000_0000_0000_0000
  {
    assert Power(4) == 256 * Power(3);
    assert Power(5) == 256 * Power(4);
    assert Power(6) == 256 * Power(5);
    assert Power(7) == 256 * Power(6);
    assert Power(8) == 256 * Power(7);
  }

  // ---------- variable-length integers ----------

  function VarintLen(v: nat): (n: nat)
    requires v < VARINT_LIMIT
  {
    if v <= 63 then 1 else if v <= 16383 then 2 else if v <= 1_073_741_823 then 4 else 8
  }

  function VarintParseLen(first: byte): nat {
    match first / 64
    case 0 => 1
    case 1 => 2
    case 2 => 4
    case _ => 8
  }

  /** The two top bits that announce a length. */
  function LengthTag(len: nat): byte {
    if len == 1 then 0 else if len == 2 then 0x40 else if len == 4 then 0x80 else 0xc0
  }

  /** The top bits of the first byte are clear before the tag is put there. */
  lemma FirstByteSmall(v: nat)
    requires v < VARINT_LIMIT
    ensures var s := BigEndian(v, VarintLen(v)); s[0] < 64 && Value(s) == v
  {
    var n := VarintLen(v);
    var s := BigEndian(v, n);
    Powers();
    ValueOfBigEndian(v, n);
    assert v < 64 * Power(n - 1) && v < Power(n);
    FirstByte(s);
    FactorBound(s[0], 64, Power(n - 1));
  }

  function Varint(v: nat): (s: seq<byte>)
    requires v < VARINT_LIMIT
    ensures |s| == VarintLen(v)
  {
    FirstByteSmall(v);
    var s := BigEndian(v, VarintLen(v));
    s[0 := s[0] + LengthTag(VarintLen(v))]
  }

  /** A printed integer is the fixed-size one with its first byte tagged. */
  lemma TaggedFirst(v: nat)
    requires v < VARINT_LIMIT
    ensures var len := VarintLen(v);
            var s := BigEndian(v, len);
            0 < |s| == len && s[0] + LengthTag(len) < 256 && Varint(v) == s[0 := s[0] + LengthTag(len)]
  {
    FirstByteSmall(v);
  }

  function ReadVarint(s: seq<byte>): (r: Result<Parsed<nat>>)
    ensures r.Ok? ==> |r.value.rest| < |s|
  {
    if s == [] then Err(BufferTooShort)
    else
      var len := VarintParseLen(s[0]);
      if len > |s| then Err(BufferTooShort)
      else Ok(Parsed(Value(s[..len][0 := s[0] % 64]), s[len..]))
  }

  /** Parsing what was printed gives the value back and leaves what follows. */
  lemma VarintRoundTrip(v: nat, t: seq<byte>)
    requires v < VARINT_LIMIT
    ensures ReadVarint(Varint(v) + t) == Ok(Parsed(v, t))
  {
    var len := VarintLen(v);
    var be := BigEndian(v, len);
    FirstByteSmall(v);
    var s := Varint(v) + t;
    assert s[0] == be[0] + LengthTag(len);
    assert VarintParseLen(s[0]) == len && s[0] % 64 == be[0];
    assert s[..len] == Varint(v) && s[len..] == t;
    assert s[..len][0 := s[0] % 64] == be;
  }

  /** A varint that parses is in range, and no encoding of it is shorter than the printed
      one. */
  lemma VarintShortest(s: seq<byte>)
    requires ReadVarint(s).Ok?
    ensures var p := ReadVarint(s).value;
            && p.value < VARINT_LIMIT
            && VarintLen(p.value) + |p.rest| <= |s|
            && p.rest == s[|s| - |p.rest|..]
  {
    var len := VarintParseLen(s[0]);
    var m := s[..len][0 := s[0] % 64];
    FirstByte(m);
    Powers();
    assert (m[0] + 1) * Power(len - 1) <= 64 * Power(len - 1);
  }

  lemma Appended(s: seq<byte>, b: byte)
    ensures Value(s + [b]) == Value(s) * 256 + b
  {
    assert (s + [b])[..|s|] == s;
  }

  lemma ValueOf4(a: byte, b: byte, c: byte, d: byte)
    ensures Value([a]) == a && Value([a, b]) == a * 256 + b
    ensures Value([a, b, c, d]) == ((a * 256 + b) * 256 + c) * 256 + d
  {
    Appended([], a);
    Appended([a], b);
    Appended([a, b], c);
    Appended([a, b, c], d);
    assert [] + [a] == [a] && [a] + [b] == [a, b] && [a, b] + [c] == [a, b, c] && [a, b, c] + [d] == [a, b, c, d];
  }

  lemma ValueOf8(a: byte, b: byte, c: byte, d: byte, e: byte, f: byte, g: byte, h: byte)
    ensures Value([a, b, c, d, e, f, g, h]) == (((Value([a, b, c, d]) * 256 + e) * 256 + f) * 256 + g) * 256 + h
  {
    var s := [a, b, c, d];
    Appended(s, e);
    Appended(s + [e], f);
    Appended(s + [e] + [f], g);
    Appended(s + [e] + [f] + [g], h);
    assert s + [e] + [f] + [g] + [h] == [a, b, c, d, e, f, g, h];
  }

  lemma ShortExamples()
    ensures ReadVarint([0x25]) == Ok(Parsed(37, [])) && ReadVarint([0x40, 0x25]) == Ok(Parsed(37, []))
    ensures ReadVarint([0x7b, 0xbd]) == Ok(Parsed(15293, []))
  {
    hide Value;
    ValueOf4(0x25, 0, 0, 0);
    ValueOf4(0, 0x25, 0, 0);
    ValueOf4(0x3b, 0xbd, 0, 0);
    assert [0x25][..1][0 := 0x25] == [0x25];
    assert [0x40, 0x25][..2][0 := 0] == [0, 0x25];
    assert [0x7b, 0xbd][..2][0 := 0x3b] == [0x3b, 0xbd];
  }

  lemma MediumExample()
    ensures ReadVarint([0x9d, 0x7f, 0x3e, 0x7d]) == Ok(Parsed(494878333, []))
  {
    hide Value;
    ValueOf4(0x1d, 0x7f, 0x3e, 0x7d);
    var four: seq<byte> := [0x9d, 0x7f, 0x3e, 0x7d];
    assert four[..4][0 := 0x1d] == [0x1d, 0x7f, 0x3e, 0x7d];
  }

  lemma LongExample()
    ensures ReadVarint([0xc2, 0x19, 0x7c, 0x5e, 0xff, 0x14, 0xe8, 0x8c]) == Ok(Parsed(151288809941952652, []))
  {
    hide Value;
    ValueOf4(0x02, 0x19, 0x7c, 0x5e);
    ValueOf8(0x02, 0x19, 0x7c, 0x5e, 0xff, 0x14, 0xe8, 0x8c);
    var eight: seq<byte> := [0xc2, 0x19, 0x7c, 0x5e, 0xff, 0x14, 0xe8, 0x8c];
    assert eight[..8][0 := 2] == [2, 0x19, 0x7c, 0x5e, 0xff, 0x14, 0xe8, 0x8c];
  }

  /** The examples of section A.1 of RFC 9000: big-endian, with the length in the two top bits. */
  lemma StandardExamples()
    ensures ReadVarint([0x25]) == Ok(Parsed(37, [])) && ReadVarint([0x40, 0x25]) == Ok(Parsed(37, []))
    ensures ReadVarint([0x7b, 0xbd]) == Ok(Parsed(15293, []))
    ensures ReadVarint([0x9d, 0x7f, 0x3e, 0x7d]) == Ok(Parsed(494878333, []))
    ensures ReadVarint([0xc2, 0x19, 0x7c, 0x5e, 0xff, 0x14, 0xe8, 0x8c]) == Ok(Parsed(151288809941952652, []))
  {
    hide ReadVarint;
    ShortExamples();
    MediumExample();
    LongExample();
  }

  // ---------- several fields in a row ----------

  ghost predicate AllVarints(vs: seq<nat>) {
    forall i :: 0 <= i < |vs| ==> vs[i] < VARINT_LIMIT
  }

  function FieldsLen(vs: seq<nat>): nat
    requires AllVarints(vs)
  {
    if vs == [] then 0 else VarintLen(vs[0]) + FieldsLen(vs[1..])
  }

  ghost function Varints(vs: seq<nat>): (s: seq<byte>)
    requires AllVarints(vs)
    ensures |s| == FieldsLen(vs)
  {
    if vs == [] then [] else Varint(vs[0]) + Varints(vs[1..])
  }

  function ReadVarints(s: seq<byte>, n: nat): (r: Result<Parsed<seq<nat>>>)
    ensures r.Ok? ==> |r.value.value| == n && |r.value.rest| <= |s|
  {
    if n == 0 then Ok(Parsed([], s))
    else
      var p :- ReadVarint(s);
      var q :- ReadVarints(p.rest, n - 1);
      Ok(Parsed([p.value] + q.value, q.rest))
  }

  function ReadBytes(s: seq<byte>, n: nat): (r: Result<Parsed<seq<byte>>>)
    ensures r.Ok? ==> |r.value.value| == n && |r.value.rest| + n == |s|
  {
    if |s| < n then Err(BufferTooShort) else Ok(Parsed(s[..n], s[n..]))
  }

  lemma {:induction false} VarintsRoundTrip(vs: seq<nat>, t: seq<byte>)
    requires AllVarints(vs)
    ensures ReadVarints(Varints(vs) + t, |vs|) == Ok(Parsed(vs, t))
  {
    if vs == [] {
      assert Varints(vs) + t == t;
    } else {
      assert Varints(vs) + t == Varint(vs[0]) + (Varints(vs[1..]) + t);
      VarintRoundTrip(vs[0], Varints(vs[1..]) + t);
      VarintsRoundTrip(vs[1..], t);
      assert [vs[0]] + vs[1..] == vs;
    }
  }

  lemma {:induction false} VarintsInRange(s: seq<byte>, n: nat)
    requires ReadVarints(s, n).Ok?
    ensures AllVarints(ReadVarints(s, n).value.value)
  {
    if n > 0 {
      VarintShortest(s);
      VarintsInRange(ReadVarint(s).value.rest, n - 1);
    }
  }

  // ---------- the cursor ----------

  /** `r` and the bytes left are what reading `spec` yields. */
  ghost predicate Reads<T(!new)>(spec: Result<Parsed<T>>, r: Result<T>, left: seq<byte>) {
    match spec
    case Ok(p) => r == Ok(p.value) && left == p.rest
    case Err(e) => r == Err(e)
  }

  /** Writing `s` either appends it or reports that it does not fit. */
  ghost predicate Wrote(s: seq<byte>, before: seq<byte>, ahead: seq<byte>, r: Result<()>,
                        before': seq<byte>, ahead': seq<byte>) {
    && r == (if |s| <= |ahead| then Ok(()) else Err(BufferTooShort))
    && (r.Ok? ==> before' == before + s && ahead' == ahead[|s|..])
  }

  /** Writing one string after the other is writing both. */
  lemma WroteBoth(a: seq<byte>, b: seq<byte>, before: seq<byte>, ahead: seq<byte>, mid: seq<byte>, rest: seq<byte>,
                  r: Result<()>, before': seq<byte>, ahead': seq<byte>)
    requires Wrote(a, before, ahead, Ok(()), mid, rest) && Wrote(b, mid, rest, r, before', ahead')
    ensures Wrote(a + b, before, ahead, r, before', ahead')
  {
  }

  lemma VarintsSplit(vs: seq<nat>)
    requires AllVarints(vs) && vs != []
    ensures vs[0] < VARINT_LIMIT && AllVarints(vs[1..]) && Varints(vs) == Varint(vs[0]) + Varints(vs[1..])
    ensures |Varints(vs)| >= |Varint(vs[0])|
  {
  }

  class Octets {
    const buf: array<byte>
    var off: nat

    ghost predicate Valid()
      reads this
    {
      off <= buf.Length
    }

    ghost function Before(): seq<byte>
      reads this, buf
      requires Valid()
    {
      buf[..off]
    }

    ghost function Ahead(): seq<byte>
      reads this, buf
      requires Valid()
    {
      buf[off..]
    }

    function Cap(): nat
      reads this
      requires Valid()
    {
      buf.Length - off
    }

    constructor (buf: array<byte>)
      ensures Valid() && this.buf == buf && off == 0
    {
      this.buf := buf;
      off := 0;
    }

    /** `peek_u8`. */
    method Peek() returns (r: Result<byte>)
      requires Valid()
      ensures r == if Ahead() == [] then Err(BufferTooShort) else Ok(Ahead()[0])
    {
      r := if Cap() < 1 then Err(BufferTooShort) else Ok(buf[off]);
    }

    /** `get_u8`, `get_u16`, `get_u24`, `get_u32` and `get_u64`. */
    method GetUint(n: nat) returns (r: Result<nat>)
      requires Valid()
      modifies this`off
      ensures Valid()
      ensures r == if n <= |old(Ahead())| then Ok(Value(old(Ahead())[..n])) else Err(BufferTooShort)
      ensures Ahead() == if r.Ok? then old(Ahead())[n..] else old(Ahead())
    {
      if Cap() < n {
        return Err(BufferTooShort);
      }
      assert buf[off..off + n] == Ahead()[..n];
      r := Ok(Value(buf[off..off + n]));
      off := off + n;
    }

    method GetBytes(n: nat) returns (r: Result<seq<byte>>)
      requires Valid()
      modifies this`off
      ensures Valid() && Reads(ReadBytes(old(Ahead()), n), r, Ahead())
      ensures r.Err? ==> off == old(off)
    {
      if Cap() < n {
        return Err(BufferTooShort);
      }
      assert buf[off..off + n] == Ahead()[..n];
      r := Ok(buf[off..off + n]);
      off := off + n;
    }

    method GetVarint() returns (r: Result<nat>)
      requires Valid()
      modifies this`off
      ensures Valid() && Reads(ReadVarint(old(Ahead())), r, Ahead())
      ensures r.Err? ==> off == old(off)
    {
      var first :- Peek();
      var len := VarintParseLen(first);
      if len > Cap() {
        return Err(BufferTooShort);
      }
      var slice := GetBytes(len);
      var vec := slice.value;
      r := Ok(Value(vec[0 := vec[0] % 64]));
    }

    /** `put_bytes`; on failure nothing is written. */
    method PutBytes(s: seq<byte>) returns (r: Result<()>)
      requires Valid()
      modifies this`off, buf
      ensures Valid() && Wrote(s, old(Before()), old(Ahead()), r, Before(), Ahead())
      ensures r.Err? ==> off == old(off) && buf[..] == old(buf[..])
    {
      if Cap() < |s| {
        return Err(BufferTooShort);
      }
      forall i | 0 <= i < |s| {
        buf[off + i] := s[i];
      }
      off := off + |s|;
      r := Ok(());
    }

    /** `put_u8`, `put_u16`, `put_u24`, `put_u32` and `put_u64`. */
    method PutUint(v: nat, n: nat) returns (r: Result<()>)
      requires Valid()
      modifies this`off, buf
      ensures Valid() && Wrote(BigEndian(v, n), old(Before()), old(Ahead()), r, Before(), Ahead())
      ensures r.Err? ==> off == old(off) && buf[..] == old(buf[..])
    {
      r := PutBytes(BigEndian(v, n));
    }

    /** `put_varint`: the integer is written, then its first byte is tagged in place. */
    method PutVarint(v: nat) returns (r: Result<()>)
      requires Valid() && v < VARINT_LIMIT
      modifies this`off, buf
      ensures Valid() && Wrote(Varint(v), old(Before()), old(Ahead()), r, Before(), Ahead())
      ensures r.Err? ==> off == old(off) && buf[..] == old(buf[..])
    {
      TaggedFirst(v);
      hide BigEndian, Varint, VarintLen, LengthTag;
      var len := VarintLen(v);
      var start := off;
      var _ :- PutUint(v, len);
      assert buf[..off][start] == BigEndian(v, len)[0];
      buf[start] := buf[start] + LengthTag(len);
      r := Ok(());
    }

    /** Successive `get_varint` calls. */
    method GetVarints(n: nat) returns (r: Result<seq<nat>>)
      requires Valid()
      modifies this`off
      ensures Valid() && Reads(ReadVarints(old(Ahead()), n), r, Ahead())
    {
      if n == 0 {
        return Ok([]);
      }
      var v :- GetVarint();
      var vs :- GetVarints(n - 1);
      r := Ok([v] + vs);
    }

    /** Successive `put_varint` calls. */
    method PutVarints(vs: seq<nat>) returns (r: Result<()>)
      requires Valid() && AllVarints(vs)
      modifies this`off, buf
      ensures Valid() && Wrote(Varints(vs), old(Before()), old(Ahead()), r, Before(), Ahead())
    {
      if vs == [] {
        return Ok(());
      }
      ghost var before, ahead := Before(), Ahead();
      VarintsSplit(vs);
      hide Varint, Varints, AllVarints, VarintLen;
      var _ :- PutVarint(vs[0]);
      ghost var mid, rest := Before(), Ahead();
      r := PutVarints(vs[1..]);
      WroteBoth(Varint(vs[0]), Varints(vs[1..]), before, ahead, mid, rest, r, Before(), Ahead());
      hide Wrote;
    }
  }
}
