/**
 * A rolling `TimeWindow`: threads that count hits, and the thread in the background
 * that expires and rolls.  Counting reads the clock, compares it with the start of
 * the window, and inserts under the key of the moment, as three separate steps; a
 * roll changes start and key together.
 */
module CounterProtocol {

  /** The sorted set of each window, named by the window's start. */
  type Buckets = map<int, set<real>>

  /** `curr_time - start_time < window`. */
  predicate Passes(window: nat, start: int, stamp: real) {
    stamp - start as real < window as real
  }

  /** `ZADD final_key {t: t}`. */
  function Inserted(buckets: Buckets, start: int, stamp: real): Buckets {
    buckets[start := (if start in buckets then buckets[start] else {}) + {stamp}]
  }

  /** The stamps that `expire` keeps when the current window starts at `start`. */
  function Kept(bucket: set<real>, start: int, window: nat): set<real> {
    set x | x in bucket && (start - 1) as real < x && x < (start + window) as real
  }

  /** The buckets after `expire`; a set without members is no key. */
  function Expired(buckets: Buckets, start: int, window: nat): Buckets {
    if start !in buckets then buckets
    else if Kept(buckets[start], start, window) == {} then buckets - {start}
    else buckets[start := Kept(buckets[start], start, window)]
  }

  /** `is_expired`. */
  predicate Over(window: nat, start: int, now: real) {
    now - start as real >= window as real
  }

  /** A reading of the clock, with the start of the window and the number of rolls at that moment. */
  datatype Reading = Reading(stamp: real, start: int, rolls: nat)

  datatype Thread = Free | HasRead(reading: Reading) | HasChecked(reading: Reading)

  /** A hit that was inserted: into which bucket, how many rolls and how much time after its reading. */
  datatype Hit = Hit(reading: Reading, bucket: int, rolls: nat, lag: real)

  datatype System = System(
    window: nat, clock: real, start: int, rolls: nat, buckets: Buckets, threads: seq<Thread>, hits: seq<Hit>)

  datatype Action =
    | Read(p: nat, now: real)
    | Check(p: nat, now: real)
    | Insert(p: nat, now: real)
    | Expire(now: real)
    | Roll(now: real)

  /** The multiple of the window at or before a time. */
  function WindowStart(x: real, window: nat): int
    requires window != 0
  {
    x.Floor - x.Floor % window
  }

  /** An aligned window that holds a time is the one that starts there. */
  lemma OnlyWindow(x: real, s: int, window: nat)
    requires window != 0 && s % window == 0 && s as real <= x < (s + window) as real
    ensures WindowStart(x, window) == s
  {
    var t := x.Floor;
    AlignedDown(t, window);
    AlignedApart(t - t % window, s, window);
  }

  function Start(n: nat, window: nat, now: real): System
    requires window != 0
  {
    System(window, now, WindowStart(now, window), 0, map[], seq(n, _ => Free), [])
  }

  function Goto(s: System, p: nat, t: Thread): System
    requires p < |s.threads|
  {
    s.(threads := s.threads[p := t])
  }

  /** One step at time `now`; a step that is not enabled changes nothing. */
  function Step(s: System, a: Action): System {
    if a.now < s.clock then s
    else
      match a
      case Read(p, now) =>
        if p < |s.threads| && s.threads[p].Free?
        then Goto(s.(clock := now), p, HasRead(Reading(now, s.start, s.rolls))) else s
      case Check(p, now) =>
        if p < |s.threads| && s.threads[p].HasRead?
        then Goto(s.(clock := now), p,
                  if Passes(s.window, s.start, s.threads[p].reading.stamp) then HasChecked(s.threads[p].reading) else Free)
        else s
      case Insert(p, now) =>
        if p < |s.threads| && s.threads[p].HasChecked? && s.threads[p].reading.rolls <= s.rolls then
          var r := s.threads[p].reading;
          Goto(s.(clock := now, buckets := Inserted(s.buckets, s.start, r.stamp),
                  hits := s.hits + [Hit(r, s.start, s.rolls - r.rolls, now - r.stamp)]), p, Free)
        else s
      case Expire(now) => s.(clock := now, buckets := Expired(s.buckets, s.start, s.window))
      case Roll(now) =>
        if Over(s.window, s.start, now)
        then s.(clock := now, start := s.start + s.window, rolls := s.rolls + 1) else s
  }

  function Run(s: System, schedule: seq<Action>): System
    decreases |schedule|
  {
    if schedule == [] then s
    else Step(Run(s, schedule[..|schedule| - 1]), schedule[|schedule| - 1])
  }

  // ------------------------------------------------------------- aligned windows

  lemma AlignedDown(t: int, window: nat)
    requires window != 0
    ensures (t - t % window) % window == 0 && t - t % window <= t < t - t % window + window
  {
    var q := t / window;
    assert t == q * window + t % window;
    MultipleAligned(q, window);
  }

  /** A multiple of the window that is less than one window from zero is zero. */
  lemma SmallMultiple(n: int, window: nat)
    requires window != 0 && 0 - window < n * window < window
    ensures n == 0
  {
    assert n >= 1 ==> n * window >= 1 * window;
    assert n <= -1 ==> n * window <= (-1) * window;
  }

  lemma MultipleAligned(q: int, window: nat)
    requires window != 0
    ensures (q * window) % window == 0
  {
    var r, d := (q * window) % window, (q * window) / window;
    assert q * window == d * window + r;
    assert (q - d) * window == r;
    SmallMultiple(q - d, window);
  }

  lemma AlignedUp(t: int, window: nat)
    requires window != 0 && t % window == 0
    ensures (t + window) % window == 0
  {
    var q := t / window;
    assert t + window == (q + 1) * window;
    MultipleAligned(q + 1, window);
  }

  lemma AlignedApart(s: int, t: int, window: nat)
    requires window != 0 && s % window == 0 && t % window == 0 && 0 - window < s - t < window
    ensures s == t
  {
    var a, b := s / window, t / window;
    assert s == a * window && t == b * window;
    assert s - t == (a - b) * window;
    SmallMultiple(a - b, window);
  }

  // ---------------------------------------------------- what every run keeps

  /** The window has moved on by one window for every roll since the reading. */
  predicate ReadingOk(window: nat, r: Reading, start: int, rolls: nat, clock: real) {
    && r.start as real <= r.stamp <= clock
    && r.rolls <= rolls && start == r.start + (rolls - r.rolls) * window
  }

  /** A hit is never past its bucket's window, and at most its lag before it. */
  predicate HitOk(window: nat, h: Hit) {
    && h.reading.start as real <= h.reading.stamp
    && h.bucket == h.reading.start + h.rolls * window
    && h.bucket as real - h.lag <= h.reading.stamp < (h.bucket + window) as real
  }

  ghost predicate ThreadOk(s: System, t: Thread) {
    match t
    case Free => true
    case HasRead(r) => ReadingOk(s.window, r, s.start, s.rolls, s.clock)
    case HasChecked(r) =>
      ReadingOk(s.window, r, s.start, s.rolls, s.clock) && r.stamp < (s.start + s.window) as real
  }

  ghost predicate Inv(s: System) {
    && s.window != 0 && s.start % s.window == 0 && s.start as real <= s.clock
    && (forall p :: 0 <= p < |s.threads| ==> ThreadOk(s, s.threads[p]))
    && (forall i :: 0 <= i < |s.hits| ==> HitOk(s.window, s.hits[i]) && s.hits[i].bucket % s.window == 0)
  }

  lemma RollKeepsReading(window: nat, r: Reading, start: int, rolls: nat, clock: real, now: real)
    requires ReadingOk(window, r, start, rolls, clock) && clock <= now
    ensures ReadingOk(window, r, start + window, rolls + 1, now)
  {
    assert (rolls + 1 - r.rolls) * window == (rolls - r.rolls) * window + window;
  }

  lemma RollKeepsInv(s: System, now: real)
    requires Inv(s) && s.clock <= now && Over(s.window, s.start, now)
    ensures Inv(Step(s, Roll(now)))
  {
    AlignedUp(s.start, s.window);
    var s' := Step(s, Roll(now));
    forall p | 0 <= p < |s'.threads| ensures ThreadOk(s', s'.threads[p]) {
      assert ThreadOk(s, s.threads[p]);
      if !s.threads[p].Free? {
        RollKeepsReading(s.window, s.threads[p].reading, s.start, s.rolls, s.clock, now);
      }
    }
  }

  lemma InsertKeepsInv(s: System, p: nat, now: real)
    requires Inv(s)
    ensures Inv(Step(s, Insert(p, now)))
  {
    if p < |s.threads| {
      assert ThreadOk(s, s.threads[p]);
    }
  }

  lemma ReadKeepsInv(s: System, p: nat, now: real)
    requires Inv(s)
    ensures Inv(Step(s, Read(p, now)))
  {
    assert 0 * s.window == 0;
  }

  lemma CheckKeepsInv(s: System, p: nat, now: real)
    requires Inv(s)
    ensures Inv(Step(s, Check(p, now)))
  {
    if p < |s.threads| {
      assert ThreadOk(s, s.threads[p]);
    }
  }

  lemma StepInv(s: System, a: Action)
    requires Inv(s)
    ensures Inv(Step(s, a)) && Step(s, a).window == s.window
  {
    match a
    case Read(p, now) => ReadKeepsInv(s, p, now);
    case Check(p, now) => CheckKeepsInv(s, p, now);
    case Insert(p, now) => InsertKeepsInv(s, p, now);
    case Expire(now) =>
    case Roll(now) => if s.clock <= now && Over(s.window, s.start, now) { RollKeepsInv(s, now); }
  }

  lemma {:induction false} RunInv(n: nat, window: nat, now: real, schedule: seq<Action>)
    requires window != 0
    ensures var s := Run(Start(n, window, now), schedule); Inv(s) && s.window == window
    decreases |schedule|
  {
    if schedule == [] {
      AlignedDown(now.Floor, window);
    } else {
      RunInv(n, window, now, schedule[..|schedule| - 1]);
      StepInv(Run(Start(n, window, now), schedule[..|schedule| - 1]), schedule[|schedule| - 1]);
    }
  }

  // --------------------------------------------------------- lag, and expiry

  /** Every hit was inserted at most d after its reading. */
  ghost predicate LagWithin(s: System, d: real) {
    forall i :: 0 <= i < |s.hits| ==> s.hits[i].lag <= d
  }

  ghost predicate WasInserted(s: System, bucket: int, x: real) {
    exists i :: 0 <= i < |s.hits| && s.hits[i].bucket == bucket && s.hits[i].reading.stamp == x
  }

  /** Nothing is in a bucket that was not inserted there. */
  ghost predicate OnlyInserted(s: System) {
    forall b, x :: b in s.buckets && x in s.buckets[b] ==> WasInserted(s, b, x)
  }

  /** Everything inserted is still where it was inserted. */
  ghost predicate NothingLost(s: System) {
    forall i :: 0 <= i < |s.hits| ==>
      s.hits[i].bucket in s.buckets && s.hits[i].reading.stamp in s.buckets[s.hits[i].bucket]
  }

  lemma HitsGrow(s: System, a: Action)
    ensures s.hits <= Step(s, a).hits
  {
  }

  lemma OnlyInsertedStep(s: System, a: Action)
    requires OnlyInserted(s)
    ensures OnlyInserted(Step(s, a))
  {
    var s' := Step(s, a);
    HitsGrow(s, a);
    forall b, x | b in s'.buckets && x in s'.buckets[b] ensures WasInserted(s', b, x) {
      if b in s.buckets && x in s.buckets[b] {
        var i :| 0 <= i < |s.hits| && s.hits[i].bucket == b && s.hits[i].reading.stamp == x;
        assert s'.hits[i] == s.hits[i];
      } else {
        assert s'.hits[|s.hits|].bucket == b && s'.hits[|s.hits|].reading.stamp == x;
      }
    }
  }

  lemma {:induction false} RunOnlyInserted(n: nat, window: nat, now: real, schedule: seq<Action>)
    requires window != 0
    ensures OnlyInserted(Run(Start(n, window, now), schedule))
    decreases |schedule|
  {
    if schedule == [] {
    } else {
      RunOnlyInserted(n, window, now, schedule[..|schedule| - 1]);
      OnlyInsertedStep(Run(Start(n, window, now), schedule[..|schedule| - 1]), schedule[|schedule| - 1]);
    }
  }

  /** Main result: with a lag of at most d, every stamp of bucket s lies in [s - d, s + window), in every run. */
  lemma LagBoundsBuckets(n: nat, window: nat, now: real, schedule: seq<Action>, d: real)
    requires window != 0 && LagWithin(Run(Start(n, window, now), schedule), d)
    ensures var s := Run(Start(n, window, now), schedule);
            forall b, x :: b in s.buckets && x in s.buckets[b] ==> b as real - d <= x < (b + window) as real
  {
    RunInv(n, window, now, schedule);
    RunOnlyInserted(n, window, now, schedule);
    var s := Run(Start(n, window, now), schedule);
    forall b, x | b in s.buckets && x in s.buckets[b] ensures b as real - d <= x < (b + window) as real {
      var i :| 0 <= i < |s.hits| && s.hits[i].bucket == b && s.hits[i].reading.stamp == x;
      assert HitOk(window, s.hits[i]);
    }
  }

  /** With a lag of less than a second `expire` finds nothing to remove. */
  lemma ExpireKeepsAll(s: System, d: real)
    requires Inv(s) && OnlyInserted(s) && LagWithin(s, d) && d < 1.0
    ensures s.start in s.buckets ==> Kept(s.buckets[s.start], s.start, s.window) == s.buckets[s.start]
  {
    if s.start in s.buckets {
      forall x | x in s.buckets[s.start] ensures (s.start - 1) as real < x < (s.start + s.window) as real {
        var i :| 0 <= i < |s.hits| && s.hits[i].bucket == s.start && s.hits[i].reading.stamp == x;
        assert HitOk(s.window, s.hits[i]) && s.hits[i].lag <= d;
      }
    }
  }

  lemma LostNothingStep(s: System, a: Action, d: real)
    requires Inv(s) && OnlyInserted(s) && LagWithin(s, d) && d < 1.0 && NothingLost(s)
    ensures NothingLost(Step(s, a))
  {
    if a.Expire? {
      ExpireKeepsAll(s, d);
    }
  }

  lemma {:induction false} ShortLagLosesNothing(n: nat, window: nat, now: real, schedule: seq<Action>, d: real)
    requires window != 0 && LagWithin(Run(Start(n, window, now), schedule), d) && d < 1.0
    ensures NothingLost(Run(Start(n, window, now), schedule))
    decreases |schedule|
  {
    if schedule == [] {
    } else {
      var before, a := schedule[..|schedule| - 1], schedule[|schedule| - 1];
      var s := Run(Start(n, window, now), before);
      HitsGrow(s, a);
      forall i | 0 <= i < |s.hits| ensures s.hits[i].lag <= d {
        assert Step(s, a).hits[i] == s.hits[i];
      }
      RunInv(n, window, now, before);
      RunOnlyInserted(n, window, now, before);
      ShortLagLosesNothing(n, window, now, before, d);
      LostNothingStep(s, a, d);
    }
  }

  lemma RunFive(s: System, a: Action, b: Action, c: Action, d: Action, e: Action)
    ensures Run(s, [a, b, c, d, e]) == Step(Step(Step(Step(Step(s, a), b), c), d), e)
  {
    var all := [a, b, c, d, e];
    assert all[..4] == [a, b, c, d] && [a, b, c, d][..3] == [a, b, c];
    assert [a, b, c][..2] == [a, b] && [a, b][..1] == [a] && [a][..0] == [];
    assert Run(s, [a]) == Step(s, a);
    assert Run(s, [a, b]) == Step(Step(s, a), b);
    assert Run(s, [a, b, c]) == Step(Step(Step(s, a), b), c);
    assert Run(s, [a, b, c, d]) == Step(Step(Step(Step(s, a), b), c), d);
  }

  /** A hit read one second before the end of a window and inserted after the roll is expired at once. */
  lemma LateHitIsExpired(n: nat, window: nat) returns (schedule: seq<Action>)
    requires window != 0 && n != 0
    ensures var s := Run(Start(n, window, 0.0), schedule); LagWithin(s, 1.0) && !NothingLost(s)
  {
    var s0, w := Start(n, window, 0.0), window as real;
    AlignedDown(0, window);
    AlignedApart(WindowStart(0.0, window), 0, window);
    schedule := [Read(0, w - 1.0), Check(0, w - 1.0), Roll(w), Insert(0, w), Expire(w)];
    RunFive(s0, Read(0, w - 1.0), Check(0, w - 1.0), Roll(w), Insert(0, w), Expire(w));
    var s1 := Step(s0, Read(0, w - 1.0));
    assert s1.threads[0] == HasRead(Reading(w - 1.0, 0, 0));
    var s2 := Step(s1, Check(0, w - 1.0));
    assert s2.threads[0] == HasChecked(Reading(w - 1.0, 0, 0));
    var s4 := Step(Step(s2, Roll(w)), Insert(0, w));
    assert s4.hits == [Hit(Reading(w - 1.0, 0, 0), window, 1, 1.0)];
    assert s4.buckets[window] == {w - 1.0} && Kept({w - 1.0}, window, window) == {};
    var s5 := Step(s4, Expire(w));
    assert s5.hits[0].bucket !in s5.buckets;
  }

  /** No hit that was inserted is ever removed, whatever the schedule, if every lag is at most d. */
  ghost predicate NeverLoses(n: nat, window: nat, d: real)
    requires window != 0
  {
    forall now, schedule :: LagWithin(Run(Start(n, window, now), schedule), d) ==>
      NothingLost(Run(Start(n, window, now), schedule))
  }

  /** Main result: `expire` removes nothing from a reachable bucket exactly for lags below one second. */
  lemma NothingLostIffLagBelowOne(n: nat, window: nat, d: real)
    requires window != 0 && n != 0
    ensures NeverLoses(n, window, d) <==> d < 1.0
  {
    if d < 1.0 {
      forall now, schedule | LagWithin(Run(Start(n, window, now), schedule), d)
        ensures NothingLost(Run(Start(n, window, now), schedule))
      {
        ShortLagLosesNothing(n, window, now, schedule, d);
      }
    } else {
      var schedule := LateHitIsExpired(n, window);
      assert LagWithin(Run(Start(n, window, 0.0), schedule), d);
      assert !NeverLoses(n, window, d);
    }
  }

  // ----------------------------------------------------------- the right bucket

  /** The rolls between its reading and its insertion did not take the window past the hit. */
  predicate NotOvertaken(window: nat, h: Hit) {
    (h.reading.start + h.rolls * window) as real <= h.reading.stamp
  }

  /** At the reading the background thread had kept up: the window was not over. */
  predicate OnTime(window: nat, h: Hit) {
    Passes(window, h.reading.start, h.reading.stamp)
  }

  lemma RightBucket(window: nat, h: Hit)
    requires window != 0 && HitOk(window, h) && h.bucket % window == 0
    ensures WindowStart(h.reading.stamp, window) == h.bucket <==> NotOvertaken(window, h)
    ensures OnTime(window, h) ==> (NotOvertaken(window, h) <==> h.rolls == 0)
  {
    AlignedDown(h.reading.stamp.Floor, window);
    if NotOvertaken(window, h) {
      OnlyWindow(h.reading.stamp, h.bucket, window);
    }
    assert h.rolls >= 1 ==> h.rolls * window >= 1 * window;
    assert h.rolls == 0 ==> h.rolls * window == 0;
  }

  /** Every stamp is in the bucket of its own window and in no other. */
  ghost predicate Partitioned(s: System)
    requires s.window != 0
  {
    forall b, x :: b in s.buckets && x in s.buckets[b] ==> WindowStart(x, s.window) == b
  }

  /**
   * Main result: as long as nothing is lost, the buckets partition the hits of a run
   * by window exactly when no hit was overtaken; and if every reading was made
   * before the end of the window of that moment, exactly when no roll fell between
   * a reading and its insertion.
   */
  lemma PartitionedIffNoneOvertaken(n: nat, window: nat, now: real, schedule: seq<Action>)
    requires window != 0 && NothingLost(Run(Start(n, window, now), schedule))
    ensures var s := Run(Start(n, window, now), schedule);
            && s.window == window
            && (Partitioned(s) <==> forall i :: 0 <= i < |s.hits| ==> NotOvertaken(window, s.hits[i]))
            && ((forall i :: 0 <= i < |s.hits| ==> OnTime(window, s.hits[i])) ==>
                  (Partitioned(s) <==> forall i :: 0 <= i < |s.hits| ==> s.hits[i].rolls == 0))
  {
    RunInv(n, window, now, schedule);
    RunOnlyInserted(n, window, now, schedule);
    var s := Run(Start(n, window, now), schedule);
    forall i | 0 <= i < |s.hits|
      ensures WindowStart(s.hits[i].reading.stamp, window) == s.hits[i].bucket <==> NotOvertaken(window, s.hits[i])
      ensures OnTime(window, s.hits[i]) ==> (NotOvertaken(window, s.hits[i]) <==> s.hits[i].rolls == 0)
    {
      RightBucket(window, s.hits[i]);
    }
    if forall i :: 0 <= i < |s.hits| ==> NotOvertaken(window, s.hits[i]) {
      forall b, x | b in s.buckets && x in s.buckets[b] ensures WindowStart(x, s.window) == b {
        var i :| 0 <= i < |s.hits| && s.hits[i].bucket == b && s.hits[i].reading.stamp == x;
      }
    }
  }

  /**
   * Read shortly before the end of a window, say at 59.9 of 60 seconds, and inserted
   * right after the roll: the hit is in the bucket of the next window.
   */
  lemma OvertakenHit(window: nat, early: real)
    requires window != 0 && 0.0 < early <= window as real
    ensures var (w, x) := (window as real, window as real - early);
            var s := Run(Start(1, window, 0.0), [Read(0, x), Check(0, x), Expire(w), Roll(w), Insert(0, w)]);
            && s.window == window && NothingLost(s)
            && window in s.buckets && x in s.buckets[window] && !Partitioned(s)
  {
    var w, x := window as real, window as real - early;
    var s0 := Start(1, window, 0.0);
    AlignedDown(0, window);
    AlignedApart(WindowStart(0.0, window), 0, window);
    RunFive(s0, Read(0, x), Check(0, x), Expire(w), Roll(w), Insert(0, w));
    var s1 := Step(s0, Read(0, x));
    assert s1.threads[0] == HasRead(Reading(x, 0, 0));
    var s2 := Step(s1, Check(0, x));
    assert s2.threads[0] == HasChecked(Reading(x, 0, 0));
    var s4 := Step(Step(s2, Expire(w)), Roll(w));
    InsertedLate(s4, x, window);
    OnlyWindow(x, 0, window);
  }

  lemma InsertedLate(s: System, x: real, window: nat)
    requires s.start == s.window == window && s.clock == window as real && s.rolls == 1 && s.buckets == map[] && s.hits == []
    requires s.threads == [HasChecked(Reading(x, 0, 0))]
    ensures var s' := Step(s, Insert(0, window as real));
            && s'.window == window && NothingLost(s') && window in s'.buckets && x in s'.buckets[window]
  {
    assert Inserted(map[], window, x)[window] == {x};
  }
}
