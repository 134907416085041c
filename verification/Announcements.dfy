/** A limit that is granted to a peer and the announcements that tell it so (src/lib.rs, the
    MAX_DATA, MAX_STREAM_DATA and MAX_STREAMS frames): when a peer without credit is served.

    A limit is committed when its frame is built. A frame that is lost is not sent again, and a
    MAX_STREAM_DATA frame that does not fit is dropped after the commit. */
module Announcements {
  import opened Prelude
  import opened Limits

  /** One kind of credit: bytes of a stream or of the connection, or streams. The peer has
      `used` some of it, of which `returned` was given back and `back` can still be given back
      without the peer using more; the rest is forfeited. `limit` is what this endpoint grants and
      `next` what it could grant; nothing is announced any more once the account is `closed`.
      `known` is the limit the peer knows of, and `flight` are the announcements under way. */
  datatype Account = Account(initial: nat, used: nat, returned: nat, back: nat, limit: nat, next: nat,
                             closed: bool, known: nat, flight: set<nat>)
  {
    /** What was used and will never be given back. */
    function Forfeited(): int {
      used - returned - back
    }
  }

  datatype Event =
    | Use(n: nat)
    | Return(n: nat)
    | Announce(sent: bool)
    | Arrive(max: nat)
    | Vanish(max: nat)

  /** What the peer and the network hold of an account: the limit the peer knows of, and the
      announcements under way. */
  datatype Link = Link(known: nat, flight: set<nat>)

  /** A step of this endpoint, or an announcement that arrives, maybe again, or is lost.
      `sent` tells whether an announcement built in the step leaves this endpoint. */
  datatype LinkEvent<E> = Local(e: E, sent: bool) | Heard(max: nat) | Lost(max: nat)

  /** What the network does with announcements. */
  predicate Carries<E>(l: Link, ev: LinkEvent<E>, l': Link) {
    match ev
    case Local(_, _) => true
    case Heard(max) => max in l.flight && l' == l.(known := Max(l.known, max))
    case Lost(max) => l' == l.(flight := l.flight - {max})
  }

  /** The limit `next` is announced, if the frame is sent. */
  function Told(l: Link, next: nat, sent: bool): Link {
    if sent then l.(flight := l.flight + {next}) else l
  }

  function Start(initial: nat): Account {
    Account(initial, 0, 0, 0, initial, initial, false, initial, {})
  }

  /** Only what the peer uses can be added to what may be given back; some of that may be
      forfeited in any step. */
  predicate Does(a: Account, e: Event, a': Account) {
    && (a.closed ==> a'.closed)
    && match e
       case Use(n) =>
         && a.used + n <= a.known && (if n == 0 then a'.back <= a.back else a'.returned + a'.back <= a'.used)
         && a' == a.(used := a.used + n, back := a'.back, closed := a'.closed)
       case Return(n) =>
         && a'.back + n <= a.back
         && a' == a.(returned := a.returned + n, back := a'.back, next := SaturatingAdd(a.next, n), closed := a'.closed)
       case Announce(sent) =>
         && !a.closed && a.used <= a.limit && UpdateDue(a.used, a.limit, a.next) && a'.back <= a.back
         && a' == a.(limit := a.next, back := a'.back, closed := a'.closed,
                     flight := if sent then a.flight + {a.next} else a.flight)
       case Arrive(max) => max in a.flight && a' == a.(known := Max(a.known, max))
       case Vanish(max) => a' == a.(flight := a.flight - {max})
  }

  ghost predicate Inv(a: Account) {
    && a.initial <= a.known <= a.limit <= a.next <= U64_MAX
    && a.next == SaturatingAdd(a.initial, a.returned)
    && a.returned + a.back <= a.used <= a.known
    && forall v :: v in a.flight ==> v <= a.limit
  }

  lemma StepKeeps(a: Account, e: Event, a': Account)
    requires Inv(a) && Does(a, e, a')
    ensures Inv(a') && a'.initial == a.initial
  {
  }

  // ---------- blocked for good ----------

  /** No update is due, not even when all that can be given back was. */
  predicate NothingToGrant(a: Account) {
    a.used <= a.limit ==> a.closed || !UpdateDue(a.used, a.limit, SaturatingAdd(a.next, a.back))
  }

  /** The peer has used up what it knows of, no announcement under way tells it more, and there
      will be nothing more to announce. */
  predicate Stuck(a: Account) {
    a.used == a.known && NothingToGrant(a) && forall v :: v in a.flight ==> v <= a.known
  }

  ghost predicate Run(accounts: seq<Account>, es: seq<Event>) {
    && |accounts| == |es| + 1
    && forall k :: 0 <= k < |es| ==> Does(accounts[k], es[k], accounts[k + 1])
  }

  lemma StuckStays(a: Account, e: Event, a': Account)
    requires Inv(a) && Stuck(a) && Does(a, e, a')
    ensures Stuck(a') && a'.used == a.used
  {
  }

  lemma {:induction false} RunInv(accounts: seq<Account>, es: seq<Event>, k: nat)
    requires Run(accounts, es) && Inv(accounts[0]) && k < |accounts|
    ensures Inv(accounts[k]) && accounts[k].initial == accounts[0].initial
  {
    hide Does, Inv;
    if k > 0 {
      RunInv(accounts, es, k - 1);
      StepKeeps(accounts[k - 1], es[k - 1], accounts[k]);
    }
  }

  /** Once stuck, the peer never gets any credit again, whatever happens. */
  lemma {:induction false} StuckForever(accounts: seq<Account>, es: seq<Event>, j: nat, k: nat)
    requires Run(accounts, es) && Inv(accounts[0]) && j <= k < |accounts| && Stuck(accounts[j])
    ensures Stuck(accounts[k]) && accounts[k].used == accounts[j].used
  {
    hide Does, Inv, Stuck;
    if j < k {
      StuckForever(accounts, es, j, k - 1);
      RunInv(accounts, es, k - 1);
      StuckStays(accounts[k - 1], es[k - 1], accounts[k]);
    }
  }

  /** Some continuation lets the peer use more than it has. */
  ghost predicate CanGoOn(a: Account) {
    exists accounts: seq<Account>, es: seq<Event> :: Run(accounts, es) && accounts[0] == a && accounts[|es|].used > a.used
  }

  /** A peer that is not stuck is served after at most four steps. */
  lemma NotStuckGoesOn(a: Account)
    requires Inv(a) && !Stuck(a)
    ensures CanGoOn(a)
  {
    if a.used < a.known {
      var b := a.(used := a.used + 1);
      assert Run([a, b], [Use(1)]);
    } else if v :| v in a.flight && v > a.known {
      var b := a.(known := v);
      var c := b.(used := b.used + 1);
      assert Run([a, b, c], [Arrive(v), Use(1)]);
    } else {
      var b := a.(returned := a.returned + a.back, back := 0, next := SaturatingAdd(a.next, a.back));
      var c := b.(limit := b.next, flight := b.flight + {b.next});
      var d := c.(known := b.next);
      var e := d.(used := d.used + 1);
      assert Run([a, b, c, d, e], [Return(a.back), Announce(true), Arrive(b.next), Use(1)]);
    }
  }

  /** Exactly when a peer can be served, if all that can be given back is: unless it is stuck. */
  lemma ServedIff(a: Account)
    requires Inv(a)
    ensures CanGoOn(a) <==> !Stuck(a)
  {
    if Stuck(a) {
      forall accounts: seq<Account>, es: seq<Event> | Run(accounts, es) && accounts[0] == a
        ensures accounts[|es|].used == a.used
      {
        StuckForever(accounts, es, 0, |es|);
      }
    } else {
      NotStuckGoesOn(a);
    }
  }

  /** One announcement that is lost, or never sent, is enough: a peer that uses up its first
      window and has all of it read is stuck. */
  lemma LostUpdateBlocks(w: nat, sent: bool) returns (accounts: seq<Account>, es: seq<Event>)
    requires 0 < w && 2 * w <= U64_MAX
    ensures Run(accounts, es) && accounts[0] == Start(w) && es == [Use(w), Return(w), Announce(sent), Vanish(2 * w)]
    ensures Stuck(accounts[4]) && accounts[4].used == w && accounts[4].Forfeited() == 0
  {
    var a := Start(w);
    var b := a.(used := w, back := w);
    var c := b.(returned := w, back := 0, next := 2 * w);
    var d := c.(limit := 2 * w, flight := if sent then {2 * w} else {});
    var e := d.(flight := {});
    accounts, es := [a, b, c, d, e], [Use(w), Return(w), Announce(sent), Vanish(2 * w)];
    assert d.flight - {2 * w} == e.flight;
  }

  // ---------- without loss ----------

  /** No announcement is lost before it arrives, and none goes unsent. */
  predicate Reliable(a: Account, e: Event) {
    match e
    case Announce(sent) => sent
    case Vanish(max) => max <= a.known
    case _ => true
  }

  lemma {:induction false} LimitOnItsWay(accounts: seq<Account>, es: seq<Event>, k: nat)
    requires Run(accounts, es) && Inv(accounts[0]) && accounts[0].limit == accounts[0].known && k < |accounts|
    requires forall j :: 0 <= j < k ==> Reliable(accounts[j], es[j])
    ensures accounts[k].limit == accounts[k].known || accounts[k].limit in accounts[k].flight
  {
    if k > 0 {
      LimitOnItsWay(accounts, es, k - 1);
      RunInv(accounts, es, k - 1);
    }
  }

  /** Without loss a peer is stuck exactly when it forfeited as much as it was granted to begin
      with, or used up the limit of an account that was closed. */
  lemma StuckWithoutLossIff(accounts: seq<Account>, es: seq<Event>, k: nat)
    requires Run(accounts, es) && Inv(accounts[0]) && accounts[0].limit == accounts[0].known && k < |accounts|
    requires forall j :: 0 <= j < k ==> Reliable(accounts[j], es[j])
    requires accounts[k].used < U64_MAX
    ensures var a := accounts[k];
            Stuck(a) <==> a.Forfeited() == a.initial || (a.closed && a.used == a.limit)
  {
    LimitOnItsWay(accounts, es, k);
    RunInv(accounts, es, k);
    hide Run, Reliable;
  }
}
