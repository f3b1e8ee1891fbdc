/** The windowed counters of the statistics collector. */
module StatsCounters {
  import opened Options
  import opened CounterProtocol
  import opened IntSets

  /** Whether, and where, the connection is lost during a round of the background thread. */
  datatype Connection = Up | LostAtExpire | LostAtPurge

  /** The newest buckets are left, as many as there may be. */
  ghost predicate NewestKept(before: Buckets, after: Buckets, keepMax: Option<nat>) {
    && after.Keys <= before.Keys && (forall k :: k in after ==> after[k] == before[k])
    && (forall k, r :: k in after && r in before && r !in after ==> r < k)
    && |after| == if keepMax.Some? && keepMax.value < |before| then keepMax.value else |before|
  }

  /**
   * A rolling `TimeWindow` with an automatic start.  Its methods are the steps of
   * the counter protocol; a hit takes two of them after the clock was read.
   */
  class TimeWindow {
    const window: nat
    const keepMax: Option<nat>
    var startTime: int
    var buckets: Buckets

    constructor (window: nat, keepMax: Option<nat>, now: real)
      requires window != 0
      ensures this.window == window && this.keepMax == keepMax && buckets == map[]
      ensures startTime == WindowStart(now, window) && startTime % window == 0
      ensures startTime as real <= now < (startTime + window) as real
    {
      this.window, this.keepMax := window, keepMax;
      var theTime := now.Floor;
      startTime := theTime - theTime % window;
      buckets := map[];
      new;
      AlignedDown(theTime, window);
    }

    /** The comparison of `increment`. */
    method CheckTime(currTime: real) returns (passes: bool)
      ensures passes <==> Passes(window, startTime, currTime)
      ensures passes <==> currTime < (startTime + window) as real
    {
      passes := currTime - startTime as real < window as real;
    }

    /** The insertion of `increment`, under the key of the moment. */
    method Insert(currTime: real)
      modifies this`buckets
      ensures buckets == Inserted(old(buckets), startTime, currTime)
      ensures forall k, x :: (k in buckets && x in buckets[k]) <==>
                (k in old(buckets) && x in old(buckets)[k]) || (k == startTime && x == currTime)
    {
      var bucket := if startTime in buckets then buckets[startTime] else {};
      buckets := buckets[startTime := bucket + {currTime}];
    }

    /** `increment` that nobody disturbs: a hit is accepted exactly before the end of the window. */
    method Increment(currTime: real)
      modifies this`buckets
      ensures buckets == if Passes(window, startTime, currTime) then Inserted(old(buckets), startTime, currTime) else old(buckets)
      ensures forall k, x :: (k in buckets && x in buckets[k]) <==>
                || (k in old(buckets) && x in old(buckets)[k])
                || (k == startTime && x == currTime && currTime < (startTime + window) as real)
    {
      var passes := CheckTime(currTime);
      if passes {
        Insert(currTime);
      }
    }

    /** `expire`: two range removals from the current bucket. */
    method Expire()
      modifies this`buckets
      ensures buckets == Expired(old(buckets), startTime, window)
      ensures forall k, x :: (k in buckets && x in buckets[k]) <==>
                && k in old(buckets) && x in old(buckets)[k]
                && (k == startTime ==> (startTime - 1) as real < x < (startTime + window) as real)
      ensures startTime in buckets ==> buckets[startTime] != {}
    {
      if startTime in buckets {
        var left := set x | x in buckets[startTime] && (startTime - 1) as real < x;
        left := set x | x in left && x < (startTime + window) as real;
        assert left == Kept(buckets[startTime], startTime, window);
        assert forall x :: x in buckets[startTime] && (startTime - 1) as real < x < (startTime + window) as real <==> x in left;
        buckets := if left == {} then buckets - {startTime} else buckets[startTime := left];
      }
    }

    /** `purge_old`: the oldest buckets go until few enough are left. */
    method PurgeOld()
      modifies this`buckets
      ensures NewestKept(old(buckets), buckets, keepMax)
    {
      if keepMax.Some? {
        while |buckets| > keepMax.value
          invariant buckets.Keys <= old(buckets).Keys && forall k :: k in buckets ==> buckets[k] == old(buckets)[k]
          invariant forall k, r :: k in buckets && r in old(buckets) && r !in buckets ==> r < k
          invariant |buckets| <= |old(buckets)|
          invariant keepMax.value <= |buckets| || |buckets| == |old(buckets)|
          decreases |buckets|
        {
          var oldest := Oldest(buckets.Keys);
          assert (buckets - {oldest}).Keys == buckets.Keys - {oldest};
          buckets := buckets - {oldest};
        }
      }
    }

    /**
     * `_do_thread_work`: expire, roll at most once and only when the window is over,
     * purge; a lost connection ends the round and nothing else.
     */
    method DoThreadWork(now: real, connection: Connection)
      modifies this
      ensures startTime == if !connection.LostAtExpire? && (old(startTime) + window) as real <= now
                           then old(startTime) + window else old(startTime)
      ensures match connection
              case LostAtExpire => buckets == old(buckets)
              case LostAtPurge => buckets == Expired(old(buckets), old(startTime), window)
              case Up => NewestKept(Expired(old(buckets), old(startTime), window), buckets, keepMax)
    {
      if connection.LostAtExpire? {
        return;
      }
      Expire();
      if now - startTime as real >= window as real {
        startTime := startTime + window;
      }
      if connection.LostAtPurge? {
        return;
      }
      PurgeOld();
    }
  }

  /** The least of some starts. */
  method Oldest(starts: set<int>) returns (oldest: int)
    requires starts != {}
    ensures oldest in starts && forall s :: s in starts ==> oldest <= s
  {
    SomeMember(starts);
    oldest :| oldest in starts;
    var left := starts - {oldest};
    while left != {}
      invariant left <= starts && oldest in starts
      invariant forall s :: s in starts && s !in left ==> oldest <= s
      decreases left
    {
      SomeMember(left);
      var s :| s in left;
      left := left - {s};
      if s < oldest {
        oldest := s;
      }
    }
  }

  /** A window that moves with the clock. */
  class RollingTimeWindow {
    const window: real
    var hits: set<real>
    ghost var clock: real
    ghost var history: set<real>
    ghost var cut: real

    /** The key holds the distinct stamps of the history newer than the last cut. */
    ghost predicate Valid()
      reads this
    {
      && (forall x :: x in history ==> x <= clock)
      && hits == Newer(history, cut)
      && cut <= clock - window
    }

    constructor (window: real, now: real)
      requires 0.0 <= window
      ensures Valid() && this.window == window && history == {} && clock == now
    {
      this.window := window;
      hits, history, clock, cut := {}, {}, now, now - window;
    }

    method Increment(now: real)
      requires Valid() && clock <= now && 0.0 < window
      modifies this
      ensures Valid() && clock == now && history == old(history) + {now}
    {
      clock := now;
      hits := hits + {now};
      history := history + {now};
    }

    /** Just after `expire`, the value is the number of distinct stamps in (now - window, now]. */
    method Expire(now: real)
      requires Valid() && clock <= now
      modifies this
      ensures Valid() && clock == now && history == old(history)
      ensures hits == set x | x in history && now - window < x <= now
    {
      clock := now;
      hits := Newer(hits, now - window);
      cut := now - window;
    }

    method Value() returns (n: nat)
      ensures n == |hits|
    {
      n := |hits|;
    }
  }

  function Newer(stamps: set<real>, bound: real): set<real> {
    set x | x in stamps && bound < x
  }
}
