/**
 * Why the throttle keys must outlive the window.  `int(window * 2)` is zero for
 * windows under half a second.  `EXPIRE key 0` deletes the window key at once, and
 * the moderate key is never set, because Redis refuses `SET` with a life of zero.
 */
module ThrottleTtl {
  import opened Options
  import opened Stamps
  import opened ThrottleConfig
  import opened ThrottleProtocol
  import opened ThrottleSafety
  import opened ThrottleSolo

  /** The windows whose keys have no life. */
  predicate Lifeless(c: Config) {
    c.limit != 0 && 0.0 < c.window < 0.5
  }

  /** Nothing is known of earlier pops, and the time since 0.0 is longer than the gap. */
  ghost predicate Forgotten(c: Config, s: System) {
    c.limit != 0 && s.procs != [] && s.procs[0].place == Idle && s.hits == [] && s.last == None && c.Gap() <= s.clock
  }

  /** A call of process p is over that committed a hit with no life and took no turn. */
  ghost predicate HitLeft(s: System, s': System, p: nat, now: real) {
    && p < |s'.procs| && s'.procs[p].place == Idle
    && |s'.history| == |s.history| + 1 && s.history <= s'.history
    && s.clock < s'.history[|s.history|] <= s'.clock == now
    && s'.hits != [] && s'.hitsDeadline <= now
    && s'.last == s.last
  }

  /** After the hit nothing follows but, if moderated, a turn that is refused. */
  lemma TurnRefused(c: Config, s: System, p: nat, turn: Option<Turn>, stamp: real, now: real, times: seq<real>)
    requires Lifeless(c) && p < |s.procs| && s.hits == []
    requires 1 <= |times| && Ascending(times) && s.clock < stamp < now < times[0]
    ensures HitLeft(s, Run(c, HitsOutcome(c, s, p, turn, stamp, now), Advances(p, times)), p, times[|times| - 1])
  {
    TtlCoversWindow(c);
    assert c.Ttl() <= 0.0;
    var s1 := HitsOutcome(c, s, p, turn, stamp, now);
    if turn.Some? {
      RunFirst(c, s1, p, times);
      IdleWaits(c, Step(c, s1, Advance(p, times[0])), p, times[1..]);
    } else {
      IdleWaits(c, s1, p, times);
    }
  }

  lemma WindowHits(c: Config, s: System, p: nat, turn: Option<Turn>, times: seq<real>)
    requires Lifeless(c) && p < |s.procs| && s.procs[p].place == WatchHits(turn) && s.hits == []
    requires 5 <= |times| && After(s, times)
    ensures HitLeft(s, Run(c, s, Advances(p, times)), p, times[|times| - 1])
  {
    RunParts(c, s, p, times, 4);
    HitsPhase(c, s, p, turn, times[..4]);
    TurnRefused(c, s, p, turn, times[2], times[3], times[4..]);
  }

  /** With no moderate key there is nothing to wait for. */
  lemma ModeratedHits(c: Config, s: System, p: nat, times: seq<real>)
    requires Lifeless(c) && p < |s.procs| && s.procs[p].place == WatchLast && s.hits == [] && s.last == None
    requires |times| == 9 && After(s, times) && c.Gap() <= s.clock
    ensures HitLeft(s, Run(c, s, Advances(p, times)), p, times[8])
  {
    var s2 := ReadsClock(c, s, p, times);
    var rest := times[2..];
    var s3 := Step(c, s2, Advance(p, rest[0]));
    RunFirst(c, s2, p, rest);
    WindowHits(c, s3, p, Some(Turn(s.lastVer, times[1], OnTime)), rest[1..]);
  }

  lemma PrunedCallHits(c: Config, s: System, p: nat, times: seq<real>)
    requires Lifeless(c) && p < |s.procs| && s.hits == [] && s.last == None
    requires s.procs[p].place == if c.Moderated() then WatchLast else WatchHits(None)
    requires |times| == 9 && After(s, times) && c.Gap() <= s.clock
    ensures HitLeft(s, Run(c, s, Advances(p, times)), p, times[8])
  {
    if c.Moderated() {
      ModeratedHits(c, s, p, times);
    } else {
      WindowHits(c, s, p, None, times);
    }
  }

  lemma CallHits(c: Config, s: System, times: seq<real>)
    requires Lifeless(c) && Forgotten(c, s) && |times| == 11 && After(s, times)
    ensures HitLeft(s, Run(c, s, Call(0, times)), 0, times[10])
  {
    var s2 := CallPrunes(c, s, 0, times);
    PrunedCallHits(c, s2, 0, times[2..]);
  }

  /** One call of process 0, after which the window key is gone. */
  function Round(times: seq<real>): seq<Action>
    requires |times| == 12
  {
    Call(0, times[..11]) + [ExpireHits(times[11])]
  }

  lemma RoundAddsHit(c: Config, s: System, times: seq<real>)
    requires Lifeless(c) && Forgotten(c, s) && |times| == 12 && After(s, times)
    ensures var s' := Run(c, s, Round(times));
            && Forgotten(c, s') && s'.clock == times[11]
            && |s'.history| == |s.history| + 1 && s.history <= s'.history
            && s.clock < s'.history[|s.history|] <= s'.clock
  {
    CallHits(c, s, times[..11]);
    RunConcat(c, s, Call(0, times[..11]), [ExpireHits(times[11])]);
    var s1 := Run(c, s, Call(0, times[..11]));
    KeyExpires(c, s, s1, times[10], times[11]);
  }

  lemma KeyExpires(c: Config, s: System, s1: System, now: real, later: real)
    requires Forgotten(c, s) && HitLeft(s, s1, 0, now) && s.clock < now < later
    ensures var s' := Run(c, s1, [ExpireHits(later)]);
            Forgotten(c, s') && s'.clock == later && s'.history == s1.history
  {
    RunOne(c, s1, ExpireHits(later));
  }

  /** The times of a round that starts after t and takes `cycle` seconds. */
  function Times(t: real, cycle: real): seq<real> {
    seq(12, i requires 0 <= i < 12 => t + cycle / (12 - i) as real)
  }

  lemma TimesAscend(t: real, cycle: real)
    requires 0.0 < cycle
    ensures Ascending(Times(t, cycle)) && t < Times(t, cycle)[0] && Times(t, cycle)[11] == t + cycle
  {
    forall i, j | 0 <= i < j < 12 ensures Times(t, cycle)[i] < Times(t, cycle)[j] {
      SmallerShare(cycle, 12 - j, 12 - i);
    }
  }

  lemma SmallerShare(x: real, m: nat, n: nat)
    requires 0.0 < x && 0 < m < n
    ensures x / n as real < x / m as real
  {
    var a, b, p, q := x / m as real, x / n as real, m as real, n as real;
    assert a * p == x && b * q == x;
    assert 0.0 < a;
    assert b * q == a * p < a * q;
    assert (a - b) * q > 0.0;
  }

  lemma OneMoreRound(c: Config, s: System, cycle: real)
    requires Lifeless(c) && Forgotten(c, s) && 0.0 < cycle
    ensures var s' := Run(c, s, Round(Times(s.clock, cycle)));
            && Forgotten(c, s') && s'.clock == s.clock + cycle
            && |s'.history| == |s.history| + 1
            && forall lo :: lo <= s.clock && Between(s.history, lo, s.clock) ==> Between(s'.history, lo, s'.clock)
  {
    TimesAscend(s.clock, cycle);
    RoundAddsHit(c, s, Times(s.clock, cycle));
  }

  function Cycles(k: nat, cycle: real): real {
    if k == 0 then 0.0 else Cycles(k - 1, cycle) + cycle
  }

  lemma {:induction false} CyclesMultiply(k: nat, cycle: real)
    ensures Cycles(k, cycle) == k as real * cycle
  {
    if k == 0 {
    } else {
      CyclesMultiply(k - 1, cycle);
    }
  }

  ghost predicate Between(history: seq<real>, lo: real, hi: real) {
    forall i :: 0 <= i < |history| ==> lo < history[i] <= hi
  }

  /** k hits in k cycles, and the window key never holds more than one of them. */
  lemma {:induction false} ManyRounds(c: Config, n: nat, cycle: real, k: nat)
    returns (schedule: seq<Action>)
    requires Lifeless(c) && n != 0 && 0.0 < cycle
    ensures var s := Run(c, Start(n, 1.0), schedule);
            && Forgotten(c, s) && |s.history| == k && s.clock == 1.0 + Cycles(k, cycle)
            && 1.0 <= s.clock && Between(s.history, 1.0, s.clock)
  {
    schedule := [];
    if k == 0 {
      GapFitsWindow(c);
      assert Start(n, 1.0).procs[0] == Process(Idle, 0);
    } else {
      var before := ManyRounds(c, n, cycle, k - 1);
      var s := Run(c, Start(n, 1.0), before);
      OneMoreRound(c, s, cycle);
      schedule := before + Round(Times(s.clock, cycle));
      RunConcat(c, Start(n, 1.0), before, Round(Times(s.clock, cycle)));
    }
  }

  /** The bound of every run of every number of processes. */
  ghost predicate AlwaysBounded(c: Config)
    requires c.limit != 0
  {
    forall n, clock, schedule :: 0.0 <= clock ==>
      WindowBounded(Run(c, Start(n, clock), schedule).history, c.limit, c.window)
  }

  /** A schedule of one process that commits one hit too many in a window. */
  lemma LifelessKeysOverrun(c: Config)
    requires Lifeless(c)
    ensures !AlwaysBounded(c)
  {
    var k := c.limit + 1;
    var cycle := c.window / k as real;
    assert k as real * cycle == c.window;
    assert cycle <= 0.0 ==> k as real * cycle <= 0.0;
    CyclesMultiply(k, cycle);
    var schedule := ManyRounds(c, 1, cycle, k);
    var s := Run(c, Start(1, 1.0), schedule);
    CountAtLeast(s.history, 1.0, 1.0 + c.window, 0, k);
    assert !WindowBounded(s.history, c.limit, c.window);
  }

  /**
   * Main result: the window bound on committed hits holds in every run, moderated
   * or not, exactly when the window is half a second or longer.
   */
  lemma BoundedExactlyFromHalfASecond(c: Config)
    requires c.limit != 0 && 0.0 < c.window
    ensures AlwaysBounded(c) <==> 0.5 <= c.window
  {
    TtlCoversWindow(c);
    if c.Valid() {
      forall n, clock, schedule | 0.0 <= clock
        ensures WindowBounded(Run(c, Start(n, clock), schedule).history, c.limit, c.window)
      {
        HitsNeverExceedLimit(c, n, clock, schedule);
      }
    } else {
      LifelessKeysOverrun(c);
    }
  }
}
