/**
 * One throttled queue, called by one process at a time.  The clock readings of a
 * call are its arguments; Redis drops keys whose time has come when a call begins.
 */
module ThrottledQueue {
  import opened Options
  import opened Stamps
  import opened ThrottleConfig
  import opened ThrottleSpec
  import opened RedisQueues
  import ThrottleProtocol
  import ThrottleSafety
  import ThrottleSolo

  /** The window key holds what is left of the history of hits once old hits are gone. */
  ghost predicate HitsOk(c: Config, history: seq<real>, hits: seq<real>, deadline: real, clock: real) {
    && Ascending(history)
    && ThrottleSafety.Past(history, clock)
    && ThrottleSafety.KeyOk(c, history, hits, clock)
    && ThrottleSafety.DeadlineOk(c, history, hits, deadline)
  }

  /** The moderate key holds the last turn, until its life is over. */
  ghost predicate LastOk(c: Config, lastTurn: real, last: Option<real>, deadline: real, clock: real) {
    && 0.0 <= lastTurn <= clock
    && match last
       case Some(v) => v == lastTurn && v + c.Ttl() <= deadline
       case None => lastTurn == 0.0 || lastTurn + c.Ttl() <= clock
  }

  lemma LastLater(c: Config, lastTurn: real, last: Option<real>, deadline: real, clock: real, now: real)
    requires LastOk(c, lastTurn, last, deadline, clock) && clock <= now
    ensures LastOk(c, lastTurn, last, deadline, now)
  {
  }

  /** A newer stamp goes to the end of both sequences. */
  lemma HitNewest(c: Config, history: seq<real>, hits: seq<real>, deadline: real, clock: real, now: real)
    requires HitsOk(c, history, hits, deadline, clock) && clock < now
    ensures Insert(hits, now) == hits + [now]
    ensures HitsOk(c, history + [now], hits + [now], now + c.Ttl(), now)
  {
    ThrottleSafety.KeyNewer(c, history, hits, clock, now);
    InsertNewest(hits, now);
    ThrottleSafety.KeyGrows(c, history, hits, now, now);
  }

  /** The window key and the moderate key, as Redis stores them, and all that ever went into them. */
  class ThrottleKeys {
    var hits: seq<real>
    var hitsDeadline: real
    var last: Option<real>
    var lastDeadline: real
    var clock: real
    ghost var history: seq<real>
    ghost var lastTurn: real

    ghost predicate Valid(c: Config)
      reads this
    {
      HitsOk(c, history, hits, hitsDeadline, clock) && LastOk(c, lastTurn, last, lastDeadline, clock)
    }

    constructor (c: Config)
      ensures Valid(c) && history == [] && lastTurn == 0.0 && clock == 0.0
    {
      hits, hitsDeadline, last, lastDeadline := [], 0.0, None, 0.0;
      clock, history, lastTurn := 0.0, [], 0.0;
    }

    /** Time moves to `now`; keys whose deadline has passed are gone. */
    method Expire(c: Config, now: real)
      requires c.Valid() && Valid(c) && clock <= now
      modifies this
      ensures Valid(c) && clock == now && history == old(history) && lastTurn == old(lastTurn)
    {
      clock := now;
      if hits != [] && hitsDeadline <= now {
        hits := [];
      }
      if last.Some? && lastDeadline <= now {
        last := None;
      }
    }

    /** `ZREMRANGEBYSCORE window_key -inf bound`. */
    method Prune(c: Config, bound: real)
      requires Valid(c) && bound + c.window <= clock
      modifies this`hits
      ensures Valid(c) && hits == RemoveUpTo(old(hits), bound)
    {
      ThrottleSafety.SuffixAscends(history, |history| - |hits|);
      ThrottleSafety.DropKeepsKey(c, history, hits, clock, bound);
      hits := RemoveUpTo(hits, bound);
    }

    /** What a call finds: the key counts the hits of the full history newer than one window ago. */
    method Refresh(c: Config, now: real)
      requires c.Valid() && Valid(c) && clock <= now
      modifies this
      ensures Valid(c) && clock == now && history == old(history) && lastTurn == old(lastTurn)
      ensures |hits| == CountAbove(history, now - c.window)
    {
      Expire(c, now);
      ThrottleSolo.PrunedCount(c, history, hits, now);
      Prune(c, now - c.window);
    }

    /** An expired moderate key decides as the last turn itself would. */
    lemma LastDecides(c: Config, curr: real)
      requires c.Valid() && LastOk(c, lastTurn, last, lastDeadline, clock) && clock <= curr
      ensures curr - (if last.Some? then last.value else 0.0) < c.window / c.limit as real
              <==> curr - lastTurn < c.window / c.limit as real
    {
      GapFitsWindow(c);
    }

    /** `ZADD` and `EXPIRE`. */
    method Hit(c: Config, now: real)
      requires Valid(c) && clock < now
      modifies this
      ensures Valid(c) && clock == now
      ensures history == old(history) + [now] && hits == old(hits) + [now]
      ensures hitsDeadline == now + (2.0 * c.window).Floor as real
      ensures last == old(last) && lastTurn == old(lastTurn)
    {
      ghost var (grown, all) := (hits + [now], history + [now]);
      HitNewest(c, history, hits, hitsDeadline, clock, now);
      LastLater(c, lastTurn, last, lastDeadline, clock, now);
      hits, hitsDeadline := Insert(hits, now), now + c.Ttl();
      history, clock := history + [now], now;
      assert hits == grown && history == all;
      assert HitsOk(c, all, grown, hitsDeadline, clock);
    }

    /** `SET moderate_key curr EX ttl`. */
    method Turn(c: Config, curr: real)
      requires Valid(c) && 0.0 <= curr <= clock
      modifies this`last, this`lastDeadline, this`lastTurn
      ensures Valid(c) && last == Some(curr) && lastTurn == curr
      ensures lastDeadline == clock + (2.0 * c.window).Floor as real
    {
      last := Some(curr);
      lastDeadline := clock + c.Ttl();
      lastTurn := curr;
    }
  }

  class RedisThrottledQueue<T(!new)> {
    const c: Config
    const keys: ThrottleKeys
    const queue: RedisPriorityQueue<T>
    var elasticKickIn: nat

    ghost predicate Valid()
      reads this, keys, queue
    {
      c.Valid() && keys.Valid(c) && queue.Valid() && elasticKickIn <= c.limit
    }

    constructor (c: Config, keys: ThrottleKeys, queue: RedisPriorityQueue<T>)
      requires c.Valid() && keys.Valid(c) && queue.Valid()
      ensures Valid() && this.c == c && this.keys == keys && this.queue == queue && elasticKickIn == 0
    {
      this.c, this.keys, this.queue, elasticKickIn := c, keys, queue, 0;
    }

    method CheckElastic() returns (answer: bool)
      requires Valid()
      ensures answer <==> c.elastic && elasticKickIn == c.limit && c.elasticBuffer < c.limit - |keys.hits|
    {
      answer := false;
      if c.elastic && elasticKickIn == c.limit {
        var value := |keys.hits|;
        if c.limit - value > c.elasticBuffer {
          answer := true;
        }
      }
    }

    method IsModerated(curr: real) returns (answer: bool)
      requires Valid()
      ensures answer <==> curr - (if keys.last.Some? then keys.last.value else 0.0) < c.window / c.limit as real
    {
      var value := 0.0;
      if keys.last.Some? {
        value := keys.last.value;
      }
      answer := curr - value < c.Gap();
    }

    method TestHits(now: real) returns (answer: bool)
      requires Valid() && keys.clock < now
      modifies keys
      ensures Valid() && keys.clock <= now
      ensures answer <==> |old(keys.hits)| < c.limit
      ensures answer ==> keys.clock == now && keys.hits == old(keys.hits) + [now] && keys.history == old(keys.history) + [now]
      ensures !answer ==> keys.hits == old(keys.hits) && keys.history == old(keys.history)
      ensures keys.last == old(keys.last) && keys.lastTurn == old(keys.lastTurn)
    {
      answer := false;
      if |keys.hits| < c.limit {
        keys.Hit(c, now);
        answer := true;
      }
    }

    /**
     * The answer is what the specification permits over the full history of hits
     * and turns.  True adds one hit, and the turn if moderated; False leaves both
     * histories, and the hits still in the window, as they were.
     */
    method Allowed(now: real, curr: real, stamp: real) returns (answer: bool)
      requires Valid() && keys.clock < now < curr < stamp
      modifies keys
      ensures Valid() && keys.clock <= stamp
      ensures answer <==>
                var live := CountAbove(old(keys.history), now - c.window);
                && live < c.limit
                && (c.moderate && c.limit != 1 ==>
                      || c.window / c.limit as real <= curr - old(keys.lastTurn)
                      || (c.elastic && elasticKickIn == c.limit && c.elasticBuffer < c.limit - live))
      ensures answer ==> keys.history == old(keys.history) + [stamp]
      ensures answer && c.moderate && c.limit != 1 ==> keys.lastTurn == curr
      ensures !answer ==> keys.history == old(keys.history) && |keys.hits| == CountAbove(keys.history, now - c.window)
      ensures !answer || !c.moderate || c.limit == 1 ==> keys.lastTurn == old(keys.lastTurn)
    {
      keys.Refresh(c, now);
      answer := false;
      if c.Moderated() {
        keys.LastDecides(c, curr);
        var moderated := IsModerated(curr);
        if moderated {
          var catchUp := CheckElastic();
          if !catchUp {
            return;
          }
        }
        var room := TestHits(stamp);
        if room {
          keys.Turn(c, curr);
          answer := true;
        }
      } else {
        answer := TestHits(stamp);
      }
    }

    /** An allowed pop takes the head of the queue, and warms the instance up. */
    method Pop(now: real, curr: real, stamp: real) returns (item: Option<T>)
      requires Valid() && keys.clock < now < curr < stamp
      modifies this, keys, queue
      ensures Valid() && keys.clock <= stamp
      ensures var permitted := Permitted(c, old(keys.history), old(keys.lastTurn), old(elasticKickIn), now, curr);
              && (permitted ==>
                    && (item, queue.zset) == PopFirst(queue.codec, old(queue.zset))
                    && keys.history == old(keys.history) + [stamp]
                    && elasticKickIn == if old(elasticKickIn) < c.limit then old(elasticKickIn) + 1 else c.limit)
              && (!permitted ==>
                    && item == None && queue.zset == old(queue.zset)
                    && keys.history == old(keys.history) && elasticKickIn == old(elasticKickIn))
    {
      item := None;
      var allowed := Allowed(now, curr, stamp);
      if allowed {
        if elasticKickIn < c.limit {
          elasticKickIn := elasticKickIn + 1;
        }
        item := queue.Pop();
      }
    }
  }
}
