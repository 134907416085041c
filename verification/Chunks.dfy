/** `RangeBuf` and the bags of them that both stream buffers keep in a heap.

    A `BinaryHeap` is modelled as a sequence used as a bag: which chunk comes out
    first is decided by the offsets alone, and the order in which iteration meets
    the chunks is left to the caller (see `RecvSpec.Pass`). */
module Chunks {
  import opened Prelude

  datatype RangeBuf = RangeBuf(data: seq<byte>, off: nat, fin: bool) {
    function MaxOff(): nat {
      off + |data|
    }

    predicate Covers(x: int) {
      off <= x < MaxOff()
    }

    function At(x: int): byte
      requires Covers(x)
    {
      data[x - off]
    }

    /** What `split_off` leaves behind; the `fin` flag goes with the tail. */
    function Head(at: nat): RangeBuf
      requires at <= |data|
    {
      RangeBuf(data[..at], off, false)
    }

    /** What `split_off` returns. */
    function Tail(at: nat): RangeBuf
      requires at <= |data|
    {
      RangeBuf(data[at..], off + at, fin)
    }
  }

  /** `a` is a piece of `b`: same bytes at the same offsets. */
  ghost predicate Within(a: RangeBuf, b: RangeBuf) {
    && b.off <= a.off
    && a.MaxOff() <= b.MaxOff()
    && forall x :: a.Covers(x) ==> a.At(x) == b.At(x)
  }

  /** Splitting a piece of `b` gives two pieces of `b`. */
  lemma SplitWithin(a: RangeBuf, at: nat, b: RangeBuf)
    requires at <= |a.data| && Within(a, b)
    ensures Within(a.Head(at), b) && Within(a.Tail(at), b)
  {
    forall x | a.Tail(at).Covers(x)
      ensures a.Tail(at).At(x) == b.At(x)
    {
      assert a.Covers(x);
    }
    forall x | a.Head(at).Covers(x)
      ensures a.Head(at).At(x) == b.At(x)
    {
      assert a.Covers(x);
    }
  }

  lemma WithinTrans(a: RangeBuf, b: RangeBuf, c: RangeBuf)
    requires Within(a, b) && Within(b, c)
    ensures Within(a, c)
  {
    forall x | a.Covers(x)
      ensures a.At(x) == c.At(x)
    {
      assert b.Covers(x);
    }
  }

  /** The two chunks share no offset. */
  predicate Separate(a: RangeBuf, b: RangeBuf) {
    a.MaxOff() <= b.off || b.MaxOff() <= a.off
  }

  ghost predicate Has(bag: seq<RangeBuf>, x: int) {
    exists b :: b in bag && b.Covers(x)
  }

  /** Some chunk of the bag stores byte `v` at offset `x`. */
  ghost predicate Holds(bag: seq<RangeBuf>, x: int, v: byte) {
    exists b :: b in bag && b.Covers(x) && b.At(x) == v
  }

  /** Chunks occupy pairwise disjoint ranges with distinct start offsets. */
  ghost predicate Apart(bag: seq<RangeBuf>) {
    forall i, j :: 0 <= i < j < |bag| ==> Separate(bag[i], bag[j]) && bag[i].off != bag[j].off
  }

  /** Total number of bytes stored in the bag. */
  function Bytes(bag: seq<RangeBuf>): nat {
    if bag == [] then 0 else |bag[0].data| + Bytes(bag[1..])
  }

  function Without(bag: seq<RangeBuf>, i: nat): seq<RangeBuf>
    requires i < |bag|
  {
    bag[..i] + bag[i + 1..]
  }

  /** Index of a chunk with the lowest offset: what the heap keeps at its top. */
  function Lowest(bag: seq<RangeBuf>): (i: nat)
    requires bag != []
    ensures i < |bag|
    ensures forall j :: 0 <= j < |bag| ==> bag[i].off <= bag[j].off
  {
    if |bag| == 1 then 0
    else
      var k := 1 + Lowest(bag[1..]);
      assert forall j :: 1 <= j < |bag| ==> bag[j] == bag[1..][j - 1];
      if bag[0].off <= bag[k].off then 0 else k
  }

  lemma {:induction false} BytesConcat(a: seq<RangeBuf>, b: seq<RangeBuf>)
    ensures Bytes(a + b) == Bytes(a) + Bytes(b)
  {
    if a == [] {
      assert a + b == b;
    } else {
      assert (a + b)[1..] == a[1..] + b;
      BytesConcat(a[1..], b);
    }
  }

  lemma BytesAppend(a: seq<RangeBuf>, c: RangeBuf)
    ensures Bytes(a + [c]) == Bytes(a) + |c.data|
  {
    BytesConcat(a, [c]);
  }

  /** Taking chunk `i` out of a bag: size, membership and separation. */
  lemma WithoutChunk(bag: seq<RangeBuf>, i: nat)
    requires i < |bag|
    ensures Bytes(bag) == Bytes(Without(bag, i)) + |bag[i].data|
    ensures forall b :: b in bag <==> b == bag[i] || b in Without(bag, i)
    ensures Apart(bag) ==> Apart(Without(bag, i))
    ensures Apart(bag) ==> forall b :: b in Without(bag, i) ==> Separate(b, bag[i]) && b.off != bag[i].off
  {
    WithoutBytes(bag, i);
    WithoutMembers(bag, i);
    if Apart(bag) {
      WithoutApart(bag, i);
    }
  }

  lemma WithoutBytes(bag: seq<RangeBuf>, i: nat)
    requires i < |bag|
    ensures Bytes(bag) == Bytes(Without(bag, i)) + |bag[i].data|
  {
    assert bag == bag[..i] + ([bag[i]] + bag[i + 1..]);
    BytesConcat(bag[..i], [bag[i]] + bag[i + 1..]);
    BytesConcat([bag[i]], bag[i + 1..]);
    BytesConcat(bag[..i], bag[i + 1..]);
  }

  lemma WithoutMembers(bag: seq<RangeBuf>, i: nat)
    requires i < |bag|
    ensures forall b :: b in bag <==> b == bag[i] || b in Without(bag, i)
  {
    assert bag == bag[..i] + [bag[i]] + bag[i + 1..];
  }

  lemma WithoutApart(bag: seq<RangeBuf>, i: nat)
    requires i < |bag| && Apart(bag)
    ensures Apart(Without(bag, i))
    ensures forall b :: b in Without(bag, i) ==> Separate(b, bag[i]) && b.off != bag[i].off
  {
    var rest := Without(bag, i);
    assert forall k :: 0 <= k < |rest| ==> rest[k] == bag[if k < i then k else k + 1];
  }

  lemma AppendApart(bag: seq<RangeBuf>, c: RangeBuf)
    requires Apart(bag)
    requires forall b :: b in bag ==> Separate(b, c) && b.off != c.off
    ensures Apart(bag + [c])
  {
  }

  lemma HasIsHolds(bag: seq<RangeBuf>, x: int)
    ensures Has(bag, x) <==> exists v :: Holds(bag, x, v)
  {
    if Has(bag, x) {
      var b :| b in bag && b.Covers(x);
      assert Holds(bag, x, b.At(x));
    }
  }

  predicate Stores(b: RangeBuf, x: int, v: byte) {
    b.Covers(x) && b.At(x) == v
  }

  /** What a bag stores is what one chunk stores and what the others store. */
  lemma HoldsParts(bag: seq<RangeBuf>, b: RangeBuf, others: seq<RangeBuf>, x: int, v: byte)
    requires forall c :: c in bag <==> c == b || c in others
    ensures Holds(bag, x, v) <==> Stores(b, x, v) || Holds(others, x, v)
  {
  }
}
