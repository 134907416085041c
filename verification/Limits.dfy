/** When a larger limit is announced: the rule that streams, connections and stream counts
    share (src/stream.rs, `almost_full` and `should_update_max_streams_bidi`; src/lib.rs,
    `should_update_max_data`). */
module Limits {

  /** `used` of the `limit` granted to the peer is taken up, and `next` could be granted. */
  predicate UpdateDue(used: nat, limit: nat, next: nat)
    requires used <= limit
  {
    next != limit && next / 2 > limit - used
  }

  /** What the rule means: an update always grants more, it is due once what is left is well
      below half of the new limit, it is not due again right after, and once the limit is used
      up it is due unless the new limit is less than two. Whether the peer hears of it is the
      subject of `Announcements`. */
  lemma UpdateDueMeans(used: nat, limit: nat, next: nat)
    requires used <= limit <= next
    ensures UpdateDue(used, limit, next) <==> limit < next && 2 * (limit - used) + 2 <= next
    ensures used <= next && !UpdateDue(used, next, next)
    ensures used == limit < next ==> (UpdateDue(used, limit, next) <==> 2 <= next)
  {
  }
}
