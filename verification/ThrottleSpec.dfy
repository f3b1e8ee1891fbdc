/**
 * What one call of `allowed` should answer, over the whole history of hits and
 * turns, nothing of it ever pruned or expired.
 */
module ThrottleSpec {
  import opened Stamps
  import opened ThrottleConfig

  /** Moderation is broken to catch up: this instance is warmed up and enough slots are free. */
  predicate MayCatchUp(c: Config, kickIn: nat, live: nat) {
    c.elastic && kickIn == c.limit && c.elasticBuffer < c.limit - live
  }

  /**
   * A pop is permitted when fewer than `limit` hits are newer than one window
   * before `now` and, if the queue is moderated and more than one pop fits a
   * window, the time since the last turn (0.0 if there was none) is at least
   * window/limit or the instance may catch up.
   */
  predicate Permitted(c: Config, history: seq<real>, lastTurn: real, kickIn: nat, now: real, curr: real)
    requires c.limit != 0
  {
    var live := CountAbove(history, now - c.window);
    && live < c.limit
    && (c.moderate && c.limit != 1 ==>
          c.window / c.limit as real <= curr - lastTurn || MayCatchUp(c, kickIn, live))
  }
}
