/** Loss recovery and delivery together: the frames in flight of a stream are those that loss
    recovery has not handed to the connection yet, and handing over its lists of acknowledged
    and lost frames (src/lib.rs, the loops over `acked` and `lost`) is a sequence of steps of
    `Delivery`. So each frame in flight is acknowledged or lost at most once. */
module Handover {
  import opened Chunks
  import opened FrameTypes
  import opened RecoverySpec
  import SendSpec
  import D = Delivery
  import B = RecoveryRuns

  predicate OfStream(t: Tagged, id: nat) {
    t.frame.Stream? && t.frame.streamId == id
  }

  /** The frames sent that were not handed over as acknowledged or as lost. */
  ghost function Pending(b: B.Book): multiset<Tagged>
    requires B.Shape(b)
  {
    b.sent[APPLICATION] - b.acked[APPLICATION] - b.lost[APPLICATION]
  }

  /** `tags` names the packet and place of every frame in flight of stream `id`, and these are
      the pending frames of the stream, each once. */
  ghost predicate Agree(tags: seq<Tagged>, flight: seq<RangeBuf>, pending: multiset<Tagged>, id: nat) {
    && |tags| == |flight|
    && (forall i :: 0 <= i < |tags| ==> tags[i] in pending && tags[i].frame == Frame.Stream(id, flight[i]))
    && (forall i, j :: 0 <= i < j < |tags| ==> tags[i] != tags[j])
    && (forall t :: t in pending && OfStream(t, id) ==> t in tags)
    && (forall t :: t in pending ==> pending[t] == 1)
  }

  // ---------- what a step of recovery does to the pending frames ----------

  lemma MoveOut(sent: multiset<Tagged>, acked: multiset<Tagged>, lost: multiset<Tagged>, list: multiset<Tagged>)
    requires list + acked + lost <= sent
    ensures list <= sent - acked - lost
    ensures sent - (acked + list) - lost == sent - acked - lost - list
    ensures sent - acked - (lost + list) == sent - acked - lost - list
  {
  }

  lemma MoveIn(sent: multiset<Tagged>, acked: multiset<Tagged>, lost: multiset<Tagged>, list: multiset<Tagged>)
    requires acked + lost <= sent
    ensures sent + list - acked - lost == sent - acked - lost + list
  {
  }

  lemma SendMoves(b: B.Book, p: Sent, e: nat, now: int, b': B.Book)
    requires B.Inv(b) && B.Does(b, B.Send(p, e, now), b')
    ensures B.Shape(b') && Pending(b') == if e == APPLICATION then Pending(b) + multiset(p.frames) else Pending(b)
  {
    B.StepKeeps(b, B.Send(p, e, now), b');
    HandedIn(b, B.Send(p, e, now));
    SentGrows(b, p, e, now, b');
    hide B.Inv, B.Does;
    MoveIn(b.sent[APPLICATION], b.acked[APPLICATION], b.lost[APPLICATION], multiset(p.frames));
  }

  lemma SentGrows(b: B.Book, p: Sent, e: nat, now: int, b': B.Book)
    requires B.Inv(b) && B.Does(b, B.Send(p, e, now), b') && B.Shape(b')
    ensures b'.sent[APPLICATION] == if e == APPLICATION then b.sent[e] + multiset(p.frames) else b.sent[APPLICATION]
    ensures b'.acked == b.acked && b'.lost == b.lost
  {
    assert |b.rec.spaces| == |b.sent| == EPOCHS;
    hide B.Inv, PacketSent, Valid;
  }

  /** The list that an event hands over. */
  function Handed(b: B.Book, ev: B.Event): seq<Tagged>
    requires |b.rec.spaces| == EPOCHS
  {
    var s := b.rec.spaces[APPLICATION];
    if ev == B.DrainAcked(APPLICATION) then s.acked
    else if ev == B.DrainLost(APPLICATION) then s.lost
    else []
  }

  /** Except for sending, the pending frames lose just what is handed over. */
  lemma HandedMoves(b: B.Book, ev: B.Event, b': B.Book)
    requires B.Inv(b) && B.Does(b, ev, b') && !ev.Send?
    ensures B.Shape(b') && multiset(Handed(b, ev)) <= Pending(b)
    ensures Pending(b') == Pending(b) - multiset(Handed(b, ev))
  {
    B.StepKeeps(b, ev, b');
    ListMoves(b, ev, b');
    HandedIn(b, ev);
    hide B.Inv, B.Does, Handed;
    var e := APPLICATION;
    MoveOut(b.sent[e], b.acked[e], b.lost[e], multiset(Handed(b, ev)));
  }

  lemma OthersMoveNothing(b: B.Book, ev: B.Event, b': B.Book)
    requires B.Shape(b) && B.Does(b, ev, b') && (ev.AckFrame? || ev.Timeout? || ev.DropEpoch?)
    ensures b'.sent == b.sent && b'.acked == b.acked && b'.lost == b.lost
  {
    hide B.AckReceived, B.TimedOut, B.DropSpace, AckWalk, B.WalkLog, B.Earliest, B.Noted, B.Descending;
  }

  /** The list goes to the acknowledged or to the lost frames. */
  lemma ListMoves(b: B.Book, ev: B.Event, b': B.Book)
    requires B.Inv(b) && B.Does(b, ev, b') && !ev.Send? && B.Shape(b')
    ensures var e, list := APPLICATION, multiset(Handed(b, ev));
            && b'.sent[e] == b.sent[e]
            && ((b'.acked[e] == b.acked[e] + list && b'.lost[e] == b.lost[e])
                || (b'.acked[e] == b.acked[e] && b'.lost[e] == b.lost[e] + list))
  {
    assert |b.rec.spaces| == |b.acked| == |b.lost| == EPOCHS;
    assert B.Shape(b);
    hide B.Inv, B.AckReceived, B.TimedOut, B.DropSpace, AckWalk, B.WalkLog, B.Earliest, Valid;
    match ev
    case AckFrame(ranges, e, now, delay) => OthersMoveNothing(b, ev, b');
    case Timeout(completed, now, delay) => OthersMoveNothing(b, ev, b');
    case DropEpoch(e) => OthersMoveNothing(b, ev, b');
    case _ => DrainMoves(b, ev, b');
  }

  lemma DrainMoves(b: B.Book, ev: B.Event, b': B.Book)
    requires B.Shape(b) && B.Does(b, ev, b') && (ev.DrainAcked? || ev.DrainLost?)
    ensures var e, list := APPLICATION, multiset(Handed(b, ev));
            && b'.sent == b.sent && B.Shape(b) && |b'.acked| == |b'.lost| == EPOCHS
            && b'.acked[e] == (if ev.DrainAcked? then b.acked[e] + list else b.acked[e])
            && b'.lost[e] == (if ev.DrainLost? then b.lost[e] + list else b.lost[e])
  {
    assert |b.rec.spaces| == |b.acked| == |b.lost| == EPOCHS;
    hide Valid;
  }

  /** What is handed over is pending. */
  lemma HandedIn(b: B.Book, ev: B.Event)
    requires B.Inv(b)
    ensures var e := APPLICATION; multiset(Handed(b, ev)) + b.acked[e] + b.lost[e] <= b.sent[e]
  {
    assert B.Balanced(b, APPLICATION);
  }

  // ---------- handing over ----------

  function Dropped(tags: seq<Tagged>, i: nat): seq<Tagged>
    requires i < |tags|
  {
    tags[..i] + tags[i + 1..]
  }

  /** Where entry `j` of a list without entry `i` comes from. */
  function From(i: nat, j: nat): nat {
    if j < i then j else j + 1
  }

  lemma DroppedParts(tags: seq<Tagged>, flight: seq<RangeBuf>, i: nat)
    requires i < |tags| == |flight|
    ensures |Dropped(tags, i)| == |Without(flight, i)| == |tags| - 1
    ensures forall j :: 0 <= j < |tags| - 1 ==>
              Dropped(tags, i)[j] == tags[From(i, j)] && Without(flight, i)[j] == flight[From(i, j)]
  {
  }

  lemma StillIn(tags: seq<Tagged>, i: nat, u: Tagged)
    requires i < |tags| && u in tags && u != tags[i]
    ensures u in Dropped(tags, i)
  {
    var j :| 0 <= j < |tags| && tags[j] == u;
    assert Dropped(tags, i)[if j < i then j else j - 1] == u;
  }

  /** A pending frame of the stream is in flight at exactly one place, and the two sides still
      agree when it is taken out. */
  lemma TakenOut(tags: seq<Tagged>, flight: seq<RangeBuf>, pending: multiset<Tagged>, id: nat, t: Tagged) returns (i: nat)
    requires Agree(tags, flight, pending, id) && t in pending && OfStream(t, id)
    ensures i < |tags| == |flight| && tags[i] == t && flight[i] == t.frame.chunk
    ensures Agree(Dropped(tags, i), Without(flight, i), pending - multiset{t}, id)
  {
    i :| 0 <= i < |tags| && tags[i] == t;
    Minus(pending, t);
    DroppedParts(tags, flight, i);
    var rest, gone := Dropped(tags, i), pending - multiset{t};
    forall u | u in gone && OfStream(u, id)
      ensures u in rest
    {
      StillIn(tags, i, u);
    }
    hide Dropped, Without, OfStream;
    forall j | 0 <= j < |rest|
      ensures rest[j] in gone && rest[j].frame == Frame.Stream(id, Without(flight, i)[j])
    {
      assert tags[From(i, j)] in pending;
      assert tags[From(i, j)] != t;
    }
    StillDistinct(tags, rest, i);
  }

  lemma StillDistinct(tags: seq<Tagged>, rest: seq<Tagged>, i: nat)
    requires i < |tags| && |rest| == |tags| - 1 && forall j :: 0 <= j < |rest| ==> rest[j] == tags[From(i, j)]
    requires forall j, k :: 0 <= j < k < |tags| ==> tags[j] != tags[k]
    ensures forall j, k :: 0 <= j < k < |rest| ==> rest[j] != rest[k]
  {
    forall j, k | 0 <= j < k < |rest|
      ensures rest[j] != rest[k]
    {
      assert tags[From(i, j)] != tags[From(i, k)];
    }
  }

  lemma Minus(pending: multiset<Tagged>, t: Tagged)
    requires t in pending && forall u :: u in pending ==> pending[u] == 1
    ensures forall u :: u in pending - multiset{t} <==> u in pending && u != t
    ensures forall u :: u in pending - multiset{t} ==> (pending - multiset{t})[u] == 1
  {
  }

  lemma OtherFrame(tags: seq<Tagged>, flight: seq<RangeBuf>, pending: multiset<Tagged>, id: nat, t: Tagged)
    requires Agree(tags, flight, pending, id) && t in pending && !OfStream(t, id)
    ensures Agree(tags, flight, pending - multiset{t}, id)
  {
    forall i | 0 <= i < |tags|
      ensures tags[i] in pending - multiset{t}
    {
      assert OfStream(tags[i], id);
    }
  }

  /** Consecutive steps of `Delivery` from `w`. */
  ghost predicate Path(w: D.World, ws: seq<D.World>, es: seq<D.Event>) {
    && |ws| == |es| + 1 && ws[0] == w
    && (forall k :: 0 <= k < |ws| ==> D.Inv(ws[k]))
    && forall k :: 0 <= k < |es| ==> D.Does(ws[k], es[k], ws[k + 1])
  }

  /** The frames of the stream among those handed over, in order. */
  function ChunksOf(list: seq<Tagged>, id: nat): seq<RangeBuf> {
    if list == [] then []
    else (if OfStream(list[0], id) then [list[0].frame.chunk] else []) + ChunksOf(list[1..], id)
  }

  /** The steps `es` take the chunks out of flight one after the other. */
  ghost predicate TakeOut(ws: seq<D.World>, es: seq<D.Event>, chunks: seq<RangeBuf>) {
    && |ws| == |es| + 1 && |es| == |chunks|
    && forall k :: 0 <= k < |es| ==>
         && (es[k].Acked? || es[k].Lost? || es[k].Discard?)
         && es[k].i < |ws[k].flight| && ws[k].flight[es[k].i] == chunks[k]
  }

  /** The places of the stream's frames in the list, whose first entry is at `from`. */
  function PlacesOf(list: seq<Tagged>, id: nat, from: nat): seq<nat> {
    if list == [] then []
    else (if OfStream(list[0], id) then [from] else []) + PlacesOf(list[1..], id, from + 1)
  }

  /** One of the stream's frames before number `k` was refused. */
  ghost predicate RefusedBefore(ws: seq<D.World>, chunks: seq<RangeBuf>, k: nat)
    requires k <= |ws| && k <= |chunks|
  {
    exists j :: 0 <= j < k && SendSpec.Queued(ws[j].send, chunks[j]).Err?
  }

  /** The frames of a list of lost ones are queued again up to the first that is refused, of this
      stream or of another one (at place `other`), and dropped behind it. */
  ghost predicate Batched(ws: seq<D.World>, es: seq<D.Event>, chunks: seq<RangeBuf>, places: seq<nat>,
                          other: nat, stopped: bool)
  {
    && |ws| == |es| + 1 && |es| == |chunks| == |places|
    && forall k :: 0 <= k < |es| ==>
         if stopped || other < places[k] || RefusedBefore(ws, chunks, k) then es[k].Discard? else es[k].Lost?
  }

  /** What is handed over: acknowledged frames, or lost ones, of which another stream's frame at
      place `other` is the first of another stream to be refused. */
  datatype Kind = OfAcked | OfLost(other: nat, stopped: bool)

  function StepFor(kind: Kind, k: nat, i: nat): D.Event {
    match kind
    case OfAcked => D.Acked(i)
    case OfLost(other, stopped) => if stopped || other < k then D.Discard(i) else D.Lost(i)
  }

  /** A frame of the stream that is refused stops the list. */
  function After(kind: Kind, w: D.World, f: RangeBuf): Kind {
    if kind.OfLost? then OfLost(kind.other, kind.stopped || SendSpec.Queued(w.send, f).Err?) else kind
  }

  /** Every such step is enabled. */
  lemma Enabled(w: D.World, kind: Kind, k: nat, i: nat) returns (w': D.World)
    requires D.Inv(w) && i < |w.flight|
    ensures D.Does(w, StepFor(kind, k, i), w') && D.Inv(w') && w'.flight == Without(w.flight, i)
  {
    var f := w.flight[i];
    var rest := w.(flight := Without(w.flight, i));
    if kind.OfAcked? {
      w' := rest.(send := w.send.(acked := RangeSets.Inserted(w.send.acked, RangeSets.Range(f.off, f.MaxOff()))));
    } else if !kind.stopped && k <= kind.other {
      var q := SendSpec.Queued(w.send, f);
      w' := if q.Ok? then rest.(send := q.value) else rest.(failed := true);
    } else {
      w' := rest.(failed := true);
    }
    hide D.Inv, SendSpec.Queued, RangeSets.Inserted, Without;
    D.StepKeeps(w, StepFor(kind, k, i), w');
  }

  /** Handing over a list of pending frames is a path of `Delivery` that takes exactly the
      stream's frames of the list out of flight, in order; afterwards the two sides agree. */
  lemma {:induction false} ListIsPath(w: D.World, tags: seq<Tagged>, pending: multiset<Tagged>, id: nat,
                                      list: seq<Tagged>, kind: Kind, from: nat)
    returns (ws: seq<D.World>, es: seq<D.Event>, left: seq<Tagged>)
    requires D.Inv(w) && Agree(tags, w.flight, pending, id) && multiset(list) <= pending
    ensures Path(w, ws, es) && TakeOut(ws, es, ChunksOf(list, id))
    ensures Agree(left, ws[|es|].flight, pending - multiset(list), id)
    ensures kind.OfAcked? ==> forall e :: e in es ==> e.Acked?
    ensures kind.OfLost? ==> Batched(ws, es, ChunksOf(list, id), PlacesOf(list, id, from), kind.other, kind.stopped)
    decreases |list|
  {
    hide D.Inv, D.Does, Agree, OfStream, Path, TakeOut, ChunksOf, PlacesOf, Batched, SendSpec.Queued;
    ChunksStep(list, id);
    PlacesStep(list, id, from);
    if list == [] {
      ws, es, left := [w], [], tags;
      NoPath(w, kind);
      assert pending - multiset(list) == pending;
    } else {
      var t, rest := list[0], list[1..];
      HeadOf(list, pending);
      if OfStream(t, id) {
        var i := TakenOut(tags, w.flight, pending, id, t);
        var next := Enabled(w, kind, from, i);
        var e := StepFor(kind, from, i);
        ws, es, left := ListIsPath(next, Dropped(tags, i), pending - multiset{t}, id, rest, After(kind, w, w.flight[i]), from + 1);
        PathStep(w, e, next, ws, es, ChunksOf(rest, id));
        if kind.OfLost? {
          BatchStep(w, e, ws, es, w.flight[i], ChunksOf(rest, id), from, PlacesOf(rest, id, from + 1), kind);
        }
        ws, es := [w] + ws, [e] + es;
      } else {
        OtherFrame(tags, w.flight, pending, id, t);
        ws, es, left := ListIsPath(w, tags, pending - multiset{t}, id, rest, kind, from + 1);
      }
    }
  }

  lemma ChunksStep(list: seq<Tagged>, id: nat)
    ensures list == [] ==> ChunksOf(list, id) == []
    ensures list != [] && OfStream(list[0], id) ==>
              ChunksOf(list, id) == [list[0].frame.chunk] + ChunksOf(list[1..], id)
    ensures list != [] && !OfStream(list[0], id) ==> ChunksOf(list, id) == ChunksOf(list[1..], id)
  {
  }

  lemma PlacesStep(list: seq<Tagged>, id: nat, from: nat)
    ensures list == [] ==> PlacesOf(list, id, from) == []
    ensures list != [] && OfStream(list[0], id) ==> PlacesOf(list, id, from) == [from] + PlacesOf(list[1..], id, from + 1)
    ensures list != [] && !OfStream(list[0], id) ==> PlacesOf(list, id, from) == PlacesOf(list[1..], id, from + 1)
  {
  }

  lemma NoPath(w: D.World, kind: Kind)
    requires D.Inv(w)
    ensures Path(w, [w], []) && TakeOut([w], [], [])
    ensures kind.OfLost? ==> Batched([w], [], [], [], kind.other, kind.stopped)
  {
  }

  /** One more frame in front: whether it is refused decides about those behind it. */
  lemma BatchStep(w: D.World, e: D.Event, ws: seq<D.World>, es: seq<D.Event>, f: RangeBuf, chunks: seq<RangeBuf>,
                  place: nat, places: seq<nat>, kind: Kind)
    requires kind.OfLost? && (if kind.stopped || kind.other < place then e.Discard? else e.Lost?)
    requires Batched(ws, es, chunks, places, kind.other, After(kind, w, f).stopped)
    ensures Batched([w] + ws, [e] + es, [f] + chunks, [place] + places, kind.other, kind.stopped)
  {
    hide SendSpec.Queued;
    var vs, fs := [w] + ws, [f] + chunks;
    forall k | 0 <= k < |es|
      ensures RefusedBefore(vs, fs, k + 1) <==> SendSpec.Queued(w.send, f).Err? || RefusedBefore(ws, chunks, k)
    {
      if RefusedBefore(ws, chunks, k) {
        var j :| 0 <= j < k && SendSpec.Queued(ws[j].send, chunks[j]).Err?;
        assert vs[j + 1] == ws[j] && fs[j + 1] == chunks[j];
      }
      if SendSpec.Queued(w.send, f).Err? {
        assert SendSpec.Queued(vs[0].send, fs[0]).Err?;
      }
      if RefusedBefore(vs, fs, k + 1) {
        var j :| 0 <= j < k + 1 && SendSpec.Queued(vs[j].send, fs[j]).Err?;
        assert j > 0 ==> vs[j] == ws[j - 1] && fs[j] == chunks[j - 1];
      }
    }
    hide RefusedBefore;
    forall k | 0 <= k < |[e] + es|
      ensures if kind.stopped || kind.other < ([place] + places)[k] || RefusedBefore(vs, fs, k) then ([e] + es)[k].Discard?
              else ([e] + es)[k].Lost?
    {
      if k == 0 {
        NothingBefore(vs, fs);
      } else {
        var i := k - 1;
        assert RefusedBefore(vs, fs, i + 1) <==> SendSpec.Queued(w.send, f).Err? || RefusedBefore(ws, chunks, i);
        assert ([e] + es)[k] == es[i] && ([place] + places)[k] == places[i];
      }
    }
  }

  lemma NothingBefore(ws: seq<D.World>, chunks: seq<RangeBuf>)
    ensures !RefusedBefore(ws, chunks, 0)
  {
  }

  lemma HeadOf(list: seq<Tagged>, pending: multiset<Tagged>)
    requires list != [] && multiset(list) <= pending
    ensures list[0] in pending && multiset(list[1..]) <= pending - multiset{list[0]}
    ensures pending - multiset(list) == pending - multiset{list[0]} - multiset(list[1..])
  {
    assert list == [list[0]] + list[1..];
  }

  lemma PathStep(w: D.World, e: D.Event, next: D.World, ws: seq<D.World>, es: seq<D.Event>, chunks: seq<RangeBuf>)
    requires D.Inv(w) && D.Does(w, e, next) && Path(next, ws, es) && TakeOut(ws, es, chunks)
    requires (e.Acked? || e.Lost? || e.Discard?) && e.i < |w.flight|
    ensures Path(w, [w] + ws, [e] + es) && TakeOut([w] + ws, [e] + es, [w.flight[e.i]] + chunks)
    ensures ([w] + ws)[|[e] + es|] == ws[|es|]
  {
    hide D.Inv, D.Does;
  }

  // ---------- every step of recovery ----------

  /** Every step of loss recovery other than sending is a path of `Delivery`: it takes out of
      flight exactly the stream's frames that it hands over, as acknowledged or as lost, and
      leaves the two sides in agreement. Lost frames are queued again up to the first that is
      refused and dropped behind it; `other` is the place in the list of the first frame of
      another stream that is refused. */
  lemma RecoveryIsDelivery(b: B.Book, ev: B.Event, b': B.Book, w: D.World, tags: seq<Tagged>, id: nat, other: nat)
    returns (ws: seq<D.World>, es: seq<D.Event>, left: seq<Tagged>)
    requires B.Inv(b) && B.Does(b, ev, b') && !ev.Send?
    requires D.Inv(w) && Agree(tags, w.flight, Pending(b), id)
    ensures B.Shape(b') && Path(w, ws, es) && TakeOut(ws, es, ChunksOf(Handed(b, ev), id))
    ensures Agree(left, ws[|es|].flight, Pending(b'), id)
    ensures !ev.DrainLost? ==> forall e :: e in es ==> e.Acked?
    ensures ev.DrainLost? ==>
              Batched(ws, es, ChunksOf(Handed(b, ev), id), PlacesOf(Handed(b, ev), id, 0), other, false)
  {
    HandedMoves(b, ev, b');
    hide B.Inv, B.Does, D.Inv, Agree, Path, TakeOut, Pending, ChunksOf, PlacesOf, Batched, Handed;
    var kind := if ev.DrainLost? then OfLost(other, false) else OfAcked;
    ws, es, left := ListIsPath(w, tags, Pending(b), id, Handed(b, ev), kind, 0);
  }

  /** Sending a packet that holds one frame of the stream is the step of `Delivery` that
      transmits it. */
  lemma SendIsTransmit(b: B.Book, p: Sent, now: int, b': B.Book, w: D.World, max: nat, out: RangeBuf, w': D.World,
                       tags: seq<Tagged>, id: nat, k: nat)
    requires B.Inv(b) && B.Does(b, B.Send(p, APPLICATION, now), b')
    requires D.Inv(w) && D.Does(w, D.Transmit(max, out), w') && (out.data != [] || out.fin)
    requires Agree(tags, w.flight, Pending(b), id)
    requires k < |p.frames| && p.frames[k].frame == Frame.Stream(id, out)
    requires forall j :: 0 <= j < |p.frames| && j != k ==> !OfStream(p.frames[j], id)
    ensures B.Shape(b') && Agree(tags + [p.frames[k]], w'.flight, Pending(b'), id)
  {
    SendMoves(b, p, APPLICATION, now, b');
    FramesOnce(b, p, now, b');
    assert w'.flight == w.flight + [out];
    hide B.Inv, B.Does, D.Inv, D.Does;
    NewFrame(tags, w.flight, Pending(b), id, p.frames, k, out);
  }

  /** Sending any other packet changes nothing for the stream. */
  lemma OtherPacket(b: B.Book, p: Sent, e: nat, now: int, b': B.Book, tags: seq<Tagged>, flight: seq<RangeBuf>, id: nat)
    requires B.Inv(b) && B.Does(b, B.Send(p, e, now), b') && Agree(tags, flight, Pending(b), id)
    requires e == APPLICATION ==> forall j :: 0 <= j < |p.frames| ==> !OfStream(p.frames[j], id)
    ensures B.Shape(b') && Agree(tags, flight, Pending(b'), id)
  {
    SendMoves(b, p, e, now, b');
    if e == APPLICATION {
      FramesOnce(b, p, now, b');
      hide B.Inv, B.Does;
      EachOnce(p.frames);
      var was, more := Pending(b), Pending(b');
      forall t | t in more
        ensures more[t] == 1 && (OfStream(t, id) ==> t in tags)
      {
        assert t in was || t in p.frames;
      }
    }
  }

  /** The frames of a new packet are not pending, and no two of them are the same. */
  lemma FramesOnce(b: B.Book, p: Sent, now: int, b': B.Book)
    requires B.Inv(b) && B.Does(b, B.Send(p, APPLICATION, now), b')
    ensures forall t :: t in p.frames ==> t !in Pending(b)
    ensures forall i, j :: 0 <= i < j < |p.frames| ==> p.frames[i] != p.frames[j]
  {
    hide Valid, B.Balanced, B.Logged, B.Once, PacketSent, Sendable;
  }

  lemma NewFrame(tags: seq<Tagged>, flight: seq<RangeBuf>, pending: multiset<Tagged>, id: nat,
                 frames: seq<Tagged>, k: nat, out: RangeBuf)
    requires Agree(tags, flight, pending, id)
    requires k < |frames| && frames[k].frame == Frame.Stream(id, out)
    requires forall j :: 0 <= j < |frames| && j != k ==> !OfStream(frames[j], id)
    requires forall t :: t in frames ==> t !in pending
    requires forall i, j :: 0 <= i < j < |frames| ==> frames[i] != frames[j]
    ensures Agree(tags + [frames[k]], flight + [out], pending + multiset(frames), id)
  {
    var more := pending + multiset(frames);
    EachOnce(frames);
    forall t | t in more
      ensures more[t] == 1
    {
      assert t in pending || t in frames;
    }
    forall t | t in more && OfStream(t, id)
      ensures t in tags + [frames[k]]
    {
      if t !in pending {
        assert t in frames;
      }
    }
    assert frames[k] in multiset(frames);
  }

  lemma {:induction false} EachOnce(list: seq<Tagged>)
    requires forall i, j :: 0 <= i < j < |list| ==> list[i] != list[j]
    ensures forall t :: t in list ==> multiset(list)[t] == 1
  {
    if list != [] {
      EachOnce(list[1..]);
      assert list == [list[0]] + list[1..];
      assert list[0] !in list[1..];
    }
  }

  // ---------- whole runs ----------

  /** How often a frame was handed over. */
  ghost function TimesHanded(b: B.Book, t: Tagged): nat
    requires B.Shape(b)
  {
    b.acked[APPLICATION][t] + b.lost[APPLICATION][t]
  }

  lemma HandedGrows(b: B.Book, ev: B.Event, b': B.Book, t: Tagged)
    requires B.Inv(b) && B.Does(b, ev, b') && B.Shape(b')
    ensures TimesHanded(b, t) <= TimesHanded(b', t)
  {
    if ev.Send? {
      SentGrows(b, ev.pkt, ev.e, ev.now, b');
    } else {
      ListMoves(b, ev, b');
    }
    hide B.Inv, B.Does;
  }

  lemma {:induction false} HandedStays(bs: seq<B.Book>, evs: seq<B.Event>, j: nat, k: nat, t: Tagged)
    requires B.Run(bs, evs) && j <= k < |bs|
    ensures B.Shape(bs[j]) && B.Shape(bs[k]) && TimesHanded(bs[j], t) <= TimesHanded(bs[k], t)
  {
    hide B.Does, TimesHanded, Valid, B.Balanced, B.Once, B.Logged;
    B.RunInv(bs, evs, k);
    if j < k {
      B.RunInv(bs, evs, k - 1);
      HandedStays(bs, evs, j, k - 1, t);
      HandedGrows(bs[k - 1], evs[k - 1], bs[k], t);
    }
  }

  /** In every run, a frame that was handed over as acknowledged or lost is handed over neither
      way again, and each list holds it once. */
  lemma HandedOnce(bs: seq<B.Book>, evs: seq<B.Event>, j: nat, k: nat, t: Tagged)
    requires B.Run(bs, evs) && j <= k < |evs|
    ensures B.Shape(bs[j]) && B.Shape(bs[k])
    ensures t in Handed(bs[j], evs[j]) ==> multiset(Handed(bs[j], evs[j]))[t] == 1
    ensures j < k && t in Handed(bs[j], evs[j]) ==> t !in Handed(bs[k], evs[k])
  {
    B.RunInv(bs, evs, j);
    B.RunInv(bs, evs, j + 1);
    B.RunInv(bs, evs, k);
    assert B.Does(bs[j], evs[j], bs[j + 1]);
    if t in Handed(bs[j], evs[j]) {
      HandedIn(bs[j], evs[j]);
      HandedIn(bs[k], evs[k]);
      ListMoves(bs[j], evs[j], bs[j + 1]);
      AtMostOnce(bs[j], evs[j], t);
      if j < k {
        HandedStays(bs, evs, j + 1, k, t);
        AtMostOnce(bs[k], evs[k], t);
      }
    }
  }

  lemma AtMostOnce(b: B.Book, ev: B.Event, t: Tagged)
    requires B.Inv(b)
    ensures multiset(Handed(b, ev))[t] + TimesHanded(b, t) <= 1
  {
    HandedIn(b, ev);
    assert B.Once(b.sent[APPLICATION]);
    var m := multiset(Handed(b, ev)) + b.acked[APPLICATION] + b.lost[APPLICATION];
    assert m[t] <= b.sent[APPLICATION][t];
  }
}
