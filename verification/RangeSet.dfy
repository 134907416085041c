/** Sets of integers kept as sorted ranges (src/ranges.rs): what the ACK ranges and the
    acknowledged bytes of a stream are stored in.

    The `BTreeMap` from start to end is modelled as the sequence of its entries in key
    order. */
module RangeSets {
  import opened Prelude

  datatype Range = Range(start: nat, end: nat) {
    predicate Contains(x: int) {
      start <= x < end
    }
  }

  /** Entries in key order, each end strictly below the next start. A range may be
      empty: acknowledging an empty frame stores one. */
  ghost predicate Canonical(s: seq<Range>) {
    && (forall i :: 0 <= i < |s| ==> s[i].start <= s[i].end)
    && (forall i, j :: 0 <= i < j < |s| ==> s[i].end < s[j].start)
  }

  ghost predicate NonEmpty(s: seq<Range>) {
    forall r :: r in s ==> r.start < r.end
  }

  ghost predicate Member(s: seq<Range>, x: int) {
    exists r :: r in s && r.Contains(x)
  }

  predicate Overlaps(r: Range, other: Range) {
    (r.start <= other.start <= r.end) || (r.start <= other.end <= r.end)
  }

  /** `r` lies strictly within `item`, both ends included. */
  predicate Inside(r: Range, item: Range) {
    item.Contains(r.start) && item.Contains(r.end)
  }

  // ---------- what insertion yields ----------

  /** Number of leading ranges that end below `start`. */
  function Below(s: seq<Range>, start: nat): (k: nat)
    ensures k <= |s|
  {
    if s != [] && s[0].end < start then 1 + Below(s[1..], start) else 0
  }

  /** Number of leading ranges that start at or below `end`. */
  function UpTo(s: seq<Range>, end: nat): (k: nat)
    ensures k <= |s|
  {
    if s != [] && s[0].start <= end then 1 + UpTo(s[1..], end) else 0
  }

  lemma {:induction false} BelowCounts(s: seq<Range>, start: nat)
    ensures forall i :: 0 <= i < Below(s, start) ==> s[i].end < start
    ensures Below(s, start) < |s| ==> start <= s[Below(s, start)].end
  {
    if s != [] && s[0].end < start {
      BelowCounts(s[1..], start);
    }
  }

  lemma {:induction false} UpToCounts(s: seq<Range>, end: nat)
    ensures forall i :: 0 <= i < UpTo(s, end) ==> s[i].start <= end
    ensures UpTo(s, end) < |s| ==> end < s[UpTo(s, end)].start
  {
    if s != [] && s[0].start <= end {
      UpToCounts(s[1..], end);
    }
  }

  /** The one range that spans `item` and the ranges `lo .. hi` of `s`. */
  function Span(s: seq<Range>, item: Range, lo: nat, hi: nat): Range
    requires lo <= hi <= |s|
  {
    if lo == hi then item else Range(Min(item.start, s[lo].start), Max(item.end, s[hi - 1].end))
  }

  /** Insertion, declaratively: the ranges that touch `item` are replaced by the one
      range that spans them and `item`. */
  function Inserted(s: seq<Range>, item: Range): seq<Range> {
    var lo, hi := Below(s, item.start), Max(Below(s, item.start), UpTo(s, item.end));
    s[..lo] + [Span(s, item, lo, hi)] + s[hi..]
  }

  lemma SandwichCanonical(a: seq<Range>, m: Range, c: seq<Range>)
    requires Canonical(a) && Canonical(c) && m.start <= m.end
    requires forall i :: 0 <= i < |a| ==> a[i].end < m.start
    requires forall i :: 0 <= i < |c| ==> m.end < c[i].start
    ensures Canonical(a + [m] + c)
  {
    var t := a + [m] + c;
    forall i, j | 0 <= i < j < |t|
      ensures t[i].end < t[j].start
    {
      assert t[i] == if i < |a| then a[i] else if i == |a| then m else c[i - |a| - 1];
      assert t[j] == if j < |a| then a[j] else if j == |a| then m else c[j - |a| - 1];
    }
  }

  lemma SandwichMember(a: seq<Range>, m: Range, c: seq<Range>, x: int)
    ensures Member(a + [m] + c, x) <==> Member(a, x) || m.Contains(x) || Member(c, x)
  {
    var t := a + [m] + c;
    assert forall r :: r in t <==> r in a || r == m || r in c;
  }

  lemma InsertedCanonical(s: seq<Range>, item: Range)
    requires Canonical(s) && item.start <= item.end
    ensures Canonical(Inserted(s, item))
  {
    hide Below, UpTo;
    var lo, hi := Below(s, item.start), Max(Below(s, item.start), UpTo(s, item.end));
    BelowCounts(s, item.start);
    UpToCounts(s, item.end);
    SandwichCanonical(s[..lo], Span(s, item, lo, hi), s[hi..]);
  }

  /** The span holds the members of `item` and of the ranges it replaces. */
  lemma SpanMember(s: seq<Range>, item: Range, x: int)
    requires Canonical(s) && item.start <= item.end
    ensures var lo, hi := Below(s, item.start), Max(Below(s, item.start), UpTo(s, item.end));
            Span(s, item, lo, hi).Contains(x) <==> item.Contains(x) || Member(s[lo..hi], x)
  {
    var lo, hi := Below(s, item.start), Max(Below(s, item.start), UpTo(s, item.end));
    BelowCounts(s, item.start);
    UpToCounts(s, item.end);
    SpanOf(s, item, lo, hi, x);
  }

  lemma SpanOf(s: seq<Range>, item: Range, lo: nat, hi: nat, x: int)
    requires lo <= hi <= |s| && item.start <= item.end
    requires lo < hi ==> item.start <= s[lo].end && s[hi - 1].start <= item.end
    requires forall i :: lo <= i < hi ==> s[lo].start <= s[i].start && s[i].end <= s[hi - 1].end
    ensures Span(s, item, lo, hi).Contains(x) <==> item.Contains(x) || Member(s[lo..hi], x)
  {
    var mid := s[lo..hi];
    if Member(mid, x) {
      var i :| 0 <= i < |mid| && mid[i].Contains(x);
      assert mid[i] == s[lo + i];
    }
    if lo < hi && Span(s, item, lo, hi).Contains(x) && !item.Contains(x) {
      assert mid[0] == s[lo] && mid[hi - lo - 1] == s[hi - 1];
      assert mid[0].Contains(x) || mid[hi - lo - 1].Contains(x);
    }
  }

  lemma MemberParts(s: seq<Range>, lo: nat, hi: nat, x: int)
    requires lo <= hi <= |s|
    ensures Member(s, x) <==> Member(s[..lo], x) || Member(s[lo..hi], x) || Member(s[hi..], x)
  {
    assert s == s[..lo] + s[lo..hi] + s[hi..];
    assert forall r :: r in s <==> r in s[..lo] || r in s[lo..hi] || r in s[hi..];
  }

  /** Insertion is union. */
  lemma InsertedIsUnion(s: seq<Range>, item: Range, x: int)
    requires Canonical(s) && item.start <= item.end
    ensures Member(Inserted(s, item), x) <==> Member(s, x) || item.Contains(x)
  {
    var lo, hi := Below(s, item.start), Max(Below(s, item.start), UpTo(s, item.end));
    SandwichMember(s[..lo], Span(s, item, lo, hi), s[hi..], x);
    SpanMember(s, item, x);
    MemberParts(s, lo, hi, x);
  }

  lemma InsertedBounded(s: seq<Range>, item: Range, n: nat)
    requires (forall r :: r in s ==> r.end <= n) && item.end <= n
    ensures forall r :: r in Inserted(s, item) ==> r.end <= n
  {
  }

  lemma InsertedNonEmpty(s: seq<Range>, item: Range)
    requires Canonical(s) && NonEmpty(s) && item.start < item.end
    ensures NonEmpty(Inserted(s, item))
  {
  }

  /** A range below all others becomes the first entry. */
  lemma InsertedInFront(s: seq<Range>, item: Range)
    requires Canonical(s) && item.start <= item.end
    requires s != [] ==> item.end < s[0].start
    ensures Inserted(s, item) == [item] + s
  {
    assert s != [] ==> s[0].start <= s[0].end;
  }

  // ---------- removal ----------

  /** Removal of everything up to and including `largest`. */
  function Removed(s: seq<Range>, largest: nat): seq<Range> {
    var k := UpTo(s, largest);
    if k > 0 && s[k - 1].end > largest + 1 then [Range(largest + 1, s[k - 1].end)] + s[k..] else s[k..]
  }

  lemma RemovedParts(s: seq<Range>, largest: nat, x: int)
    ensures var k := UpTo(s, largest);
            Member(Removed(s, largest), x) <==> Member(s[k..], x) || (k > 0 && largest < x < s[k - 1].end)
  {
    hide UpTo, Member;
    var k := UpTo(s, largest);
    if k > 0 && s[k - 1].end > largest + 1 {
      FrontMember(Range(largest + 1, s[k - 1].end), s[k..], x);
    }
  }

  lemma FrontMember(r: Range, c: seq<Range>, x: int)
    ensures Member([r] + c, x) <==> r.Contains(x) || Member(c, x)
  {
    assert forall q :: q in [r] + c <==> q == r || q in c;
  }

  lemma RestAbove(s: seq<Range>, largest: nat, x: int)
    requires Canonical(s) && Member(s[UpTo(s, largest)..], x)
    ensures x > largest
  {
    UpToCounts(s, largest);
    var rest := s[UpTo(s, largest)..];
    var i :| 0 <= i < |rest| && rest[i].Contains(x);
  }

  lemma TwoParts(s: seq<Range>, k: nat, x: int)
    requires k <= |s|
    ensures Member(s, x) <==> Member(s[..k], x) || Member(s[k..], x)
  {
    assert s == s[..k] + s[k..];
    assert forall r :: r in s <==> r in s[..k] || r in s[k..];
  }

  lemma RemovedIsDifference(s: seq<Range>, largest: nat, x: int)
    requires Canonical(s)
    ensures Member(Removed(s, largest), x) <==> Member(s, x) && x > largest
  {
    var k := UpTo(s, largest);
    RemovedParts(s, largest, x);
    if Member(s[k..], x) {
      RestAbove(s, largest, x);
    }
    TwoParts(s, k, x);
    if k > 0 && x > largest {
      UpToCounts(s, largest);
      LowPart(s, k, largest, x);
    }
  }

  /** Of the ranges that start at or below the bound only the last can hold more. */
  lemma LowPart(s: seq<Range>, k: nat, largest: nat, x: int)
    requires Canonical(s) && 0 < k <= |s| && s[k - 1].start <= largest < x
    ensures Member(s[..k], x) <==> s[k - 1].Contains(x)
  {
    if Member(s[..k], x) {
      var i :| 0 <= i < k && s[..k][i].Contains(x);
      assert s[i].Contains(x);
    }
    if s[k - 1].Contains(x) {
      assert s[..k][k - 1].Contains(x);
    }
  }

  lemma RemovedCanonical(s: seq<Range>, largest: nat)
    requires Canonical(s)
    ensures Canonical(Removed(s, largest))
  {
    var k := UpTo(s, largest);
    if k > 0 && s[k - 1].end > largest + 1 {
      InFront(Range(largest + 1, s[k - 1].end), s, k);
    }
  }

  lemma InFront(r: Range, s: seq<Range>, k: nat)
    requires Canonical(s) && 0 < k <= |s| && r.start <= r.end && r.end == s[k - 1].end
    ensures Canonical([r] + s[k..])
  {
    var t := [r] + s[k..];
    forall i, j | 0 <= i < j < |t|
      ensures t[i].end < t[j].start
    {
      assert t[j] == s[k + j - 1];
      if i > 0 {
        assert t[i] == s[k + i - 1];
      }
    }
  }

  /** Only the last of the ranges that start at or below the bound can reach past it. */
  lemma RemovedLast(s: seq<Range>, largest: nat, i: nat)
    requires Canonical(s) && i < UpTo(s, largest) && s[i].end > largest + 1
    ensures i + 1 == UpTo(s, largest) && Canonical(s[i + 1..])
    ensures Removed(s, largest) == Inserted(s[i + 1..], Range(largest + 1, s[i].end))
  {
    UpToCounts(s, largest);
    InsertedInFront(s[i + 1..], Range(largest + 1, s[i].end));
  }

  lemma RemovedRest(s: seq<Range>, largest: nat, i: nat)
    requires i < UpTo(s, largest) && s[i].end <= largest + 1
    ensures i + 1 == UpTo(s, largest) ==> Removed(s, largest) == s[i + 1..]
  {
  }

  // ---------- enumeration ----------

  function Interval(start: nat, end: nat): (s: seq<nat>)
    ensures |s| == if start < end then end - start else 0
    ensures forall i :: 0 <= i < |s| ==> s[i] == start + i
  {
    if start < end then seq(end - start, i requires 0 <= i => start + i) else []
  }

  /** All members in ascending order. */
  function Flat(s: seq<Range>): seq<nat> {
    if s == [] then [] else Interval(s[0].start, s[0].end) + Flat(s[1..])
  }

  ghost predicate Increasing(s: seq<nat>) {
    forall i, j :: 0 <= i < j < |s| ==> s[i] < s[j]
  }

  lemma {:induction false} FlatAppend(s: seq<Range>, r: Range)
    ensures Flat(s + [r]) == Flat(s) + Interval(r.start, r.end)
  {
    if s == [] {
      assert s + [r] == [r];
      assert Flat([r]) == Interval(r.start, r.end) + Flat([]);
    } else {
      assert (s + [r])[1..] == s[1..] + [r];
      FlatAppend(s[1..], r);
    }
  }

  /** The enumeration lists exactly the members, each once, in increasing order. */
  lemma {:induction false} FlatEnumerates(s: seq<Range>)
    requires Canonical(s)
    ensures Increasing(Flat(s))
    ensures forall x: nat :: x in Flat(s) <==> Member(s, x)
  {
    if s != [] {
      FlatEnumerates(s[1..]);
      assert forall r :: r in s <==> r == s[0] || r in s[1..];
      forall x: nat
        ensures x in Flat(s) <==> Member(s, x)
      {
        if s[0].Contains(x) {
          assert Interval(s[0].start, s[0].end)[x - s[0].start] == x;
        }
        assert x in Interval(s[0].start, s[0].end) <==> s[0].Contains(x);
      }
      var head, tail := Interval(s[0].start, s[0].end), Flat(s[1..]);
      forall i | 0 <= i < |tail|
        ensures s[0].end < tail[i]
      {
        assert tail[i] in tail;
      }
    }
  }

  /** `largest` reads the last range only, so an empty last range misleads it. */
  function Last(s: seq<Range>): Option<int> {
    if s == [] then None else Some(s[|s| - 1].end - 1)
  }

  lemma LastIsMaximumIff(s: seq<Range>)
    requires Canonical(s) && s != []
    ensures (Member(s, Last(s).value) && forall x :: Member(s, x) ==> x <= Last(s).value)
            <==> s[|s| - 1].start < s[|s| - 1].end
  {
    var r := s[|s| - 1];
    if r.start < r.end {
      assert r.Contains(r.end - 1);
    }
  }

  /** Acknowledging an empty frame at offset 3 makes the set claim the largest number 2. */
  lemma EmptyRangeMisleads()
    ensures Inserted([], Range(3, 3)) == [Range(3, 3)] && Canonical([Range(3, 3)])
    ensures Last([Range(3, 3)]) == Some(2) && !Member([Range(3, 3)], 2)
  {
    InsertedInFront([], Range(3, 3));
    assert [Range(3, 3)] + [] == [Range(3, 3)];
  }

  lemma FirstIsMember(s: seq<Range>)
    requires s != []
    ensures NonEmpty(s) ==> Member(s, s[0].start)
  {
    assert s[0] in s;
    assert NonEmpty(s) ==> s[0].Contains(s[0].start);
  }

  /** Comparison with a single range: a canonical set within [0, n) is that range
      exactly when it holds every number below `n`. */
  lemma EqualsRangeIff(s: seq<Range>, n: nat)
    requires Canonical(s) && n > 0 && forall r :: r in s ==> r.end <= n
    ensures s == [Range(0, n)] <==> forall x :: 0 <= x < n ==> Member(s, x)
  {
    if s == [Range(0, n)] {
      assert s[0] in s;
    }
    if forall x :: 0 <= x < n ==> Member(s, x) {
      assert Member(s, 0);
      var i :| 0 <= i < |s| && s[i].Contains(0);
      assert i == 0 && s[0] in s;
      assert s[0].end < n ==> Member(s, s[0].end);
      assert s[|s| - 1] in s && s[|s| - 1].start <= s[|s| - 1].end;
      assert s == [s[0]];
    }
  }

  // ---------- the set that is updated in place ----------

  /** Where `prev_to` finds its entry, plus one: the number of leading entries with a
      key of at most `key`. */
  method PrevTo(s: seq<Range>, key: nat) returns (k: nat)
    ensures k == UpTo(s, key)
  {
    k := 0;
    while k < |s| && s[k].start <= key
      invariant k <= |s| && UpTo(s, key) == k + UpTo(s[k..], key)
    {
      assert s[k..][1..] == s[k + 1..];
      k := k + 1;
    }
  }

  /** The entry before `item` touches it exactly when it is the first one that does. */
  lemma PrevTouches(s: seq<Range>, item: Range, p: nat)
    requires Canonical(s) && item.start <= item.end && p == UpTo(s, item.start)
    ensures var lo := if p > 0 && Overlaps(s[p - 1], item) then p - 1 else p;
            && lo == Below(s, item.start)
            && Span(s, item, lo, p) == (if lo < p then Range(Min(item.start, s[lo].start), Max(item.end, s[lo].end)) else item)
            && (forall i :: p <= i < |s| ==> item.start < s[i].start)
  {
    hide Below, UpTo;
    UpToCounts(s, item.start);
    BelowFound(s, item.start, if p > 0 && Overlaps(s[p - 1], item) then p - 1 else p);
  }

  /** The count is determined by where it stops. */
  lemma BelowFound(s: seq<Range>, start: nat, k: nat)
    requires k <= |s| && (k > 0 ==> s[k - 1].end < start) && (k < |s| ==> start <= s[k].end) && Canonical(s)
    ensures k == Below(s, start)
  {
    BelowCounts(s, start);
  }

  /** The entries in front of the span have keys below its own. */
  lemma FrontKeysBelow(s: seq<Range>, item: Range, lo: nat, hi: nat)
    requires Canonical(s) && lo == Below(s, item.start) && lo <= hi <= |s|
    ensures forall i :: 0 <= i < lo ==> s[i].start < Span(s, item, lo, hi).start
  {
    BelowCounts(s, item.start);
  }

  /** The loop of `insert`: takes in the following entries that touch, one by one. The map
      without the entries taken out so far is `entries[..lo] + tail`; as all keys of its first
      part are below the span, `next_to` finds `tail[0]`. */
  method Absorb(ghost entries: seq<Range>, item: Range, ghost lo: nat, ghost p: nat, after: seq<Range>, first: Range)
    returns (tail: seq<Range>, span: Range, ghost b: nat)
    requires Canonical(entries) && item.start <= item.end && lo <= p <= |entries| && after == entries[p..]
    requires first == Span(entries, item, lo, p)
    requires forall i :: p <= i < |entries| ==> item.start < entries[i].start
    requires lo < p ==> entries[p - 1].start <= item.end
    ensures p <= b <= |entries| && tail == entries[b..] && span == Span(entries, item, lo, b)
    ensures lo < b ==> entries[b - 1].start <= item.end
    ensures b < |entries| ==> item.end < entries[b].start
  {
    tail, b, span := after, p, first;
    while tail != [] && (Inside(tail[0], item) || Overlaps(tail[0], item))
      invariant p <= b <= |entries| && tail == entries[b..]
      invariant span == Span(entries, item, lo, b)
      invariant lo < b ==> entries[b - 1].start <= item.end
      decreases |tail|
    {
      var r := tail[0];
      TouchesIff(r, item);
      SpanGrows(entries, item, lo, b);
      tail := tail[1..];
      if !Inside(r, item) {
        span := Range(Min(span.start, r.start), Max(span.end, r.end));
      }
      b := b + 1;
    }
    if tail != [] {
      TouchesIff(tail[0], item);
    }
  }

  lemma TouchesIff(r: Range, item: Range)
    requires item.start <= item.end && item.start < r.start <= r.end
    ensures Inside(r, item) || Overlaps(r, item) <==> r.start <= item.end
  {
  }

  /** One more touching entry is taken into the span. */
  lemma SpanGrows(s: seq<Range>, item: Range, lo: nat, b: nat)
    requires Canonical(s) && item.start <= item.end && lo <= b < |s| && item.start < s[b].start
    ensures var m := Span(s, item, lo, b);
            Span(s, item, lo, b + 1) == if Inside(s[b], item) then m
                                        else Range(Min(m.start, s[b].start), Max(m.end, s[b].end))
  {
  }

  /** The two counts in `Inserted` are determined by where the touching ranges end. */
  lemma CountsFound(s: seq<Range>, item: Range, b: nat)
    requires Canonical(s) && item.start <= item.end && Below(s, item.start) <= b <= |s|
    requires Below(s, item.start) < b ==> s[b - 1].start <= item.end
    requires b < |s| ==> item.end < s[b].start
    ensures b == Max(Below(s, item.start), UpTo(s, item.end))
  {
    BelowCounts(s, item.start);
    UpToCounts(s, item.end);
    hide Below, UpTo;
  }

  /** `insert`, on the entries of the map. */
  method InsertEntry(entries: seq<Range>, item: Range) returns (m: seq<Range>)
    requires Canonical(entries) && item.start <= item.end
    ensures m == Inserted(entries, item)
  {
    var first := item;
    var p := PrevTo(entries, item.start);
    var lo := p;
    PrevTouches(entries, item, p);
    if p > 0 && Overlaps(entries[p - 1], item) {
      var r := entries[p - 1];
      lo := p - 1;
      first := Range(Min(item.start, r.start), Max(item.end, r.end));
    }
    var tail, span; ghost var b;
    tail, span, b := Absorb(entries, item, lo, p, entries[p..], first);
    CountsFound(entries, item, b);
    m := entries[..lo] + [span] + tail;
  }

  /** `remove_until`, on the entries of the map: the ranges that start at or below the bound
      are removed one by one, and what reaches past it is inserted again. */
  method RemoveEntries(entries: seq<Range>, largest: nat) returns (m: seq<Range>)
    requires Canonical(entries)
    ensures m == Removed(entries, largest)
  {
    hide Inserted, Canonical, Below, UpTo;
    m := entries;
    var k := PrevTo(entries, largest);
    var i := 0;
    while i < k
      invariant 0 <= i <= k
      invariant m == if i < k then entries[i..] else Removed(entries, largest)
    {
      var r := entries[i];
      m := m[1..];
      assert m == entries[i + 1..];
      if r.end > largest + 1 {
        RemovedLast(entries, largest, i);
        m := InsertEntry(m, Range(largest + 1, r.end));
      } else {
        RemovedRest(entries, largest, i);
      }
      i := i + 1;
    }
  }

  lemma NothingFlat()
    ensures Flat([]) == []
  {
  }

  lemma LoadBack(s: seq<Range>, k: nat)
    requires k + 1 == |s| && NonEmpty(s)
    ensures Flat(s) == Flat(s[..k]) + Interval(s[k].start, s[k].end) && s[k].start < s[k].end && NonEmpty(s[..k])
  {
    var front, r := s[..k], s[k];
    assert r in s;
    assert s == front + [r];
    FlatAppend(front, r);
  }

  lemma PopBack(a: seq<nat>, next: nat, end: nat)
    requires next < end
    ensures var b := a + Interval(next, end);
            && b != [] && b[|b| - 1] == end - 1 && b[..|b| - 1] == a + Interval(next, end - 1)
  {
    assert Interval(next, end) == Interval(next, end - 1) + [end - 1];
  }

  lemma PopFront(next: nat, end: nat, a: seq<nat>)
    requires next < end
    ensures var b := Interval(next, end) + a;
            && b != [] && b[0] == next && b[1..] == Interval(next + 1, end) + a
  {
    assert Interval(next, end) == [next] + Interval(next + 1, end);
  }

  class RangeSet {
    var inner: seq<Range>

    ghost predicate Valid()
      reads this
    {
      Canonical(inner)
    }

    constructor ()
      ensures Valid() && inner == []
    {
      inner := [];
    }

    method Insert(item: Range)
      requires Valid() && item.start <= item.end
      modifies this
      ensures Valid() && inner == Inserted(old(inner), item)
    {
      InsertedCanonical(inner, item);
      inner := InsertEntry(inner, item);
    }

    method RemoveUntil(largest: nat)
      requires Valid()
      modifies this
      ensures Valid() && inner == Removed(old(inner), largest)
    {
      RemovedCanonical(inner, largest);
      inner := RemoveEntries(inner, largest);
    }

    method PushItem(item: nat)
      requires Valid()
      modifies this
      ensures Valid() && inner == Inserted(old(inner), Range(item, item + 1))
    {
      Insert(Range(item, item + 1));
    }

    /** The end of the last range, less one: the maximum unless that range is empty. An empty
        range at zero would make the subtraction underflow. */
    method Largest() returns (r: Option<int>)
      requires Valid() && (inner != [] ==> inner[|inner| - 1].end > 0)
      ensures r == Last(inner)
      ensures inner != [] ==>
                ((Member(inner, r.value) && forall x :: Member(inner, x) ==> x <= r.value)
                 <==> inner[|inner| - 1].start < inner[|inner| - 1].end)
      ensures NonEmpty(inner) ==> (r.None? <==> forall x :: !Member(inner, x))
    {
      if inner != [] {
        LastIsMaximumIff(inner);
        FirstIsMember(inner);
      }
      var it := new Flatten(inner);
      var v := it.NextBack();
      r := if v.Some? then Some(v.value) else None;
    }

    method EqualsRange(other: Range) returns (b: bool)
      ensures b <==> inner == [other]
    {
      if |inner| != 1 {
        return false;
      }
      b := inner[0] == other;
    }
  }

  /** The iterator over single numbers. Its two directions share one cursor, so each
      object is read in one direction only. */
  class Flatten {
    var inner: seq<Range>
    var next: nat
    var end: nat

    constructor (ranges: seq<Range>)
      ensures inner == ranges && next == end == 0
    {
      inner, next, end := ranges, 0, 0;
    }

    /** What a forward reader is still to see. */
    ghost function Ahead(): seq<nat>
      reads this
    {
      Interval(next, end) + Flat(inner)
    }

    /** What a backward reader is still to see, last first. */
    ghost function Behind(): seq<nat>
      reads this
    {
      Flat(inner) + Interval(next, end)
    }

    /** With non-empty ranges, the next number of the enumeration. The start of an empty range
        is handed out as well, and the cursor then runs past its end. */
    method Next() returns (r: Option<nat>)
      modifies this
      ensures old(next == end && inner == []) ==> r.None? && next == old(next) && end == old(end) && inner == []
      ensures old(next == end && inner != []) ==>
                r == Some(old(inner[0].start)) && next == old(inner[0].start) + 1
                && end == old(inner[0].end) && inner == old(inner[1..])
      ensures old(next != end) ==> r == Some(old(next)) && next == old(next) + 1 && end == old(end) && inner == old(inner)
      ensures old(NonEmpty(inner) && next <= end) ==>
                && NonEmpty(inner) && next <= end
                && (old(Ahead()) == [] ==> r.None? && Ahead() == [])
                && (old(Ahead()) != [] ==> r == Some(old(Ahead())[0]) && Ahead() == old(Ahead())[1..])
    {
      if next == end {
        if inner == [] {
          return None;
        }
        assert inner[0] in inner;
        next, end, inner := inner[0].start, inner[0].end, inner[1..];
      }
      r := Some(next);
      if next < end {
        PopFront(next, end, Flat(inner));
      }
      next := next + 1;
    }

    /** The same from the back; the cursor must not stand at zero. */
    method NextBack() returns (r: Option<nat>)
      requires if next == end then inner != [] ==> inner[|inner| - 1].end > 0 else end > 0
      modifies this
      ensures old(next == end && inner == []) ==> r.None? && next == old(next) && end == old(end) && inner == []
      ensures old(next == end && inner != []) ==>
                var k := old(|inner| - 1);
                && r == Some(old(inner)[k].end - 1) && next == old(inner)[k].start
                && end == old(inner)[k].end - 1 && inner == old(inner)[..k]
      ensures old(next != end) ==> r == Some(old(end) - 1) && next == old(next) && end == old(end) - 1 && inner == old(inner)
      ensures old(NonEmpty(inner) && next <= end) ==>
                && NonEmpty(inner) && next <= end
                && (old(Behind()) == [] ==> r.None? && Behind() == [])
                && (old(Behind()) != [] ==>
                      && r == Some(old(Behind())[|old(Behind())| - 1])
                      && Behind() == old(Behind())[..|old(Behind())| - 1])
    {
      hide Flat;
      ghost var before, full := Behind(), NonEmpty(inner) && next <= end;
      NothingFlat();
      if next == end {
        assert before == Flat(inner);
        if inner == [] {
          return None;
        }
        var k := |inner| - 1;
        if full {
          LoadBack(inner, k);
        }
        next, end, inner := inner[k].start, inner[k].end, inner[..k];
      }
      if full {
        assert before == Flat(inner) + Interval(next, end);
        PopBack(Flat(inner), next, end);
      }
      end := end - 1;
      r := Some(end);
    }
  }
}
