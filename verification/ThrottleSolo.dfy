/**
 * One call that no other action interrupts, against the specification over the
 * full history.
 */
module ThrottleSolo {
  import opened Options
  import opened Stamps
  import opened ThrottleConfig
  import opened ThrottleSpec
  import opened ThrottleProtocol
  import opened ThrottleSafety

  /** Process p issues its next commands at the given times. */
  function Advances(p: nat, times: seq<real>): seq<Action> {
    seq(|times|, i requires 0 <= i < |times| => Advance(p, times[i]))
  }

  /** A whole call of `allowed`: ten commands are enough for every path through it. */
  function Call(p: nat, times: seq<real>): seq<Action>
    requires |times| == 11
  {
    [Begin(p, times[0])] + Advances(p, times[1..])
  }

  ghost predicate After(s: System, times: seq<real>) {
    Ascending(times) && (times != [] ==> s.clock < times[0])
  }

  lemma {:induction false} RunConcat(c: Config, s: System, a: seq<Action>, b: seq<Action>)
    requires c.limit != 0
    ensures Run(c, s, a + b) == Run(c, Run(c, s, a), b)
    decreases |b|
  {
    if b == [] {
      assert a + b == a;
    } else {
      var n := |b| - 1;
      assert (a + b)[..|a + b| - 1] == a + b[..n];
      RunConcat(c, s, a, b[..n]);
    }
  }

  lemma RunOne(c: Config, s: System, a: Action)
    requires c.limit != 0
    ensures Run(c, s, [a]) == Step(c, s, a)
  {
    assert [a][..0] == [];
  }

  lemma RunFirst(c: Config, s: System, p: nat, times: seq<real>)
    requires c.limit != 0 && times != []
    ensures Run(c, s, Advances(p, times)) == Run(c, Step(c, s, Advance(p, times[0])), Advances(p, times[1..]))
  {
    assert Advances(p, times) == [Advance(p, times[0])] + Advances(p, times[1..]);
    RunConcat(c, s, [Advance(p, times[0])], Advances(p, times[1..]));
    RunOne(c, s, Advance(p, times[0]));
  }

  /** What the first transaction leaves, when nobody interferes. */
  function HitsOutcome(c: Config, s: System, p: nat, turn: Option<Turn>, stamp: real, now: real): System
    requires c.limit != 0 && p < |s.procs|
  {
    var s0 := s.(clock := now);
    if |s.hits| < c.limit then
      var s1 := AddHit(c, s0, p, stamp);
      match turn
      case None => Allow(c, s1, p, |s.history|)
      case Some(t) => Goto(s1, p, CommitTurn(t, |s.history|))
    else Goto(s0, p, Idle)
  }

  lemma RunTwo(c: Config, s: System, p: nat, times: seq<real>)
    requires c.limit != 0 && |times| == 2
    ensures Run(c, s, Advances(p, times)) == Step(c, Step(c, s, Advance(p, times[0])), Advance(p, times[1]))
  {
    RunFirst(c, s, p, times);
    var s1 := Step(c, s, Advance(p, times[0]));
    RunFirst(c, s1, p, times[1..]);
    assert times[1..][1..] == [] && Advances(p, []) == [];
  }

  lemma GotoTwice(s: System, p: nat, a: Place, b: Place)
    requires p < |s.procs|
    ensures Goto(Goto(s, p, a), p, b) == Goto(s, p, b)
  {
    assert s.procs[p := s.procs[p].(place := a)][p := s.procs[p].(place := b)] == s.procs[p := s.procs[p].(place := b)];
  }

  /** WATCH and ZCARD. */
  lemma CountingPhase(c: Config, s: System, p: nat, turn: Option<Turn>, times: seq<real>)
    requires c.limit != 0 && p < |s.procs| && s.procs[p].place == WatchHits(turn)
    requires |times| == 2 && After(s, times)
    ensures Run(c, s, Advances(p, times)) ==
            Goto(s.(clock := times[1]), p, if |s.hits| < c.limit then StampHit(turn, s.hitsVer) else Idle)
  {
    RunTwo(c, s, p, times);
    var s1 := Goto(s.(clock := times[0]), p, CountHits(turn, s.hitsVer));
    assert Step(c, s, Advance(p, times[0])) == s1;
    GotoTwice(s.(clock := times[1]), p, CountHits(turn, s.hitsVer), if |s.hits| < c.limit then StampHit(turn, s.hitsVer) else Idle);
  }

  /** The clock reading before EXEC. */
  lemma StampStep(c: Config, s: System, p: nat, turn: Option<Turn>, stamp: real)
    requires c.limit != 0 && p < |s.procs| && s.procs[p].place == StampHit(turn, s.hitsVer) && s.clock < stamp
    ensures Step(c, s, Advance(p, stamp)) == Goto(s.(clock := stamp), p, CommitHit(turn, s.hitsVer, stamp))
  {
  }

  /** EXEC on an unchanged key. */
  lemma CommitStep(c: Config, s: System, p: nat, turn: Option<Turn>, stamp: real, now: real)
    requires c.limit != 0 && p < |s.procs| && s.procs[p].place == CommitHit(turn, s.hitsVer, stamp)
    requires s.clock < now && |s.hits| < c.limit
    ensures Step(c, s, Advance(p, now)) == HitsOutcome(c, s, p, turn, stamp, now)
  {
  }

  /** The clock reading and EXEC. */
  lemma CommitPhase(c: Config, s: System, p: nat, turn: Option<Turn>, times: seq<real>)
    requires c.limit != 0 && p < |s.procs| && s.procs[p].place == StampHit(turn, s.hitsVer)
    requires |times| == 2 && After(s, times) && |s.hits| < c.limit
    ensures Run(c, s, Advances(p, times)) == HitsOutcome(c, s, p, turn, times[0], times[1])
  {
    RunTwo(c, s, p, times);
    StampStep(c, s, p, turn, times[0]);
    var s1 := Goto(s.(clock := times[0]), p, CommitHit(turn, s.hitsVer, times[0]));
    CommitStep(c, s1, p, turn, times[0], times[1]);
    SameOutcome(c, s, s1, p, turn, times[0], times[1]);
  }

  lemma HitsPhase(c: Config, s: System, p: nat, turn: Option<Turn>, times: seq<real>)
    requires c.limit != 0 && p < |s.procs| && s.procs[p].place == WatchHits(turn)
    requires |times| == 4 && After(s, times)
    ensures Run(c, s, Advances(p, times)) == HitsOutcome(c, s, p, turn, times[2], times[3])
  {
    RunParts(c, s, p, times, 2);
    CountingPhase(c, s, p, turn, times[..2]);
    var s1 := Run(c, s, Advances(p, times[..2]));
    if |s.hits| < c.limit {
      CommitPhase(c, s1, p, turn, times[2..]);
      SameOutcome(c, s, s1, p, turn, times[2], times[3]);
    } else {
      IdleWaits(c, s1, p, times[2..]);
    }
  }

  /** The outcome does not depend on the clock and the place it starts from. */
  lemma SameOutcome(c: Config, s: System, s1: System, p: nat, turn: Option<Turn>, stamp: real, now: real)
    requires c.limit != 0 && p < |s.procs| && p < |s1.procs|
    requires s1 == Goto(s.(clock := s1.clock), p, s1.procs[p].place)
    ensures HitsOutcome(c, s1, p, turn, stamp, now) == HitsOutcome(c, s, p, turn, stamp, now)
  {
    assert HitsOutcome(c, s1, p, turn, stamp, now).procs == HitsOutcome(c, s, p, turn, stamp, now).procs;
  }

  /**
   * The call of p is over: True added one hit, one pop and, if moderated, the turn
   * taken at `curr`; False left hits, turns and pops alone.
   */
  ghost predicate Answered(c: Config, s: System, s': System, p: nat, curr: real, answer: bool)
    requires p < |s.procs|
  {
    && |s'.procs| == |s.procs| && s'.procs[p].place == Idle
    && (answer ==>
          && |s'.history| == |s.history| + 1 && s.history <= s'.history
          && s.clock < s'.history[|s.history|] <= s'.clock
          && s'.grants == s.grants + [Grant(p, |s.history|)]
          && |s'.turns| == |s.turns| + (if c.Moderated() then 1 else 0) && s.turns <= s'.turns
          && (c.Moderated() ==> s'.last == Some(curr) && s'.turns[|s.turns|].value == curr && s'.turns[|s.turns|].who == p))
    && (!answer ==> s'.history == s.history && s'.hits == s.hits && s'.grants == s.grants && s'.turns == s.turns)
  }

  lemma {:induction false} IdleWaits(c: Config, s: System, p: nat, times: seq<real>)
    requires c.limit != 0 && p < |s.procs| && s.procs[p].place == Idle && After(s, times)
    ensures Run(c, s, Advances(p, times)) == if times == [] then s else s.(clock := times[|times| - 1])
    decreases |times|
  {
    if times == [] {
      assert Advances(p, times) == [];
    } else {
      RunFirst(c, s, p, times);
      IdleWaits(c, Step(c, s, Advance(p, times[0])), p, times[1..]);
    }
  }

  lemma RunParts(c: Config, s: System, p: nat, times: seq<real>, n: nat)
    requires c.limit != 0 && n <= |times|
    ensures Run(c, s, Advances(p, times)) == Run(c, Run(c, s, Advances(p, times[..n])), Advances(p, times[n..]))
  {
    assert Advances(p, times) == Advances(p, times[..n]) + Advances(p, times[n..]);
    RunConcat(c, s, Advances(p, times[..n]), Advances(p, times[n..]));
  }

  /** Past moderation, the answer is whether the window has room. */
  lemma WindowDecides(c: Config, s: System, p: nat, turn: Option<Turn>, curr: real, times: seq<real>)
    requires c.Moderated() ==> 0.0 < c.Ttl()
    requires c.limit != 0 && p < |s.procs| && s.procs[p].place == WatchHits(turn)
    requires turn.Some? <==> c.Moderated()
    requires turn.Some? ==> turn.value.ver == s.lastVer && turn.value.curr == curr
    requires 5 <= |times| && After(s, times)
    ensures Answered(c, s, Run(c, s, Advances(p, times)), p, curr, |s.hits| < c.limit)
  {
    RunParts(c, s, p, times, 4);
    HitsPhase(c, s, p, turn, times[..4]);
    OutcomeAnswers(c, s, p, turn, curr, times[2], times[3], times[4..]);
  }

  /** What is left of a call after the first transaction: the turn, if there is one to take. */
  lemma OutcomeAnswers(
      c: Config, s: System, p: nat, turn: Option<Turn>, curr: real, stamp: real, now: real, times: seq<real>)
    requires c.Moderated() ==> 0.0 < c.Ttl()
    requires c.limit != 0 && p < |s.procs|
    requires turn.Some? <==> c.Moderated()
    requires turn.Some? ==> turn.value.ver == s.lastVer && turn.value.curr == curr
    requires 1 <= |times| && Ascending(times) && s.clock < stamp < now < times[0]
    ensures Answered(c, s, Run(c, HitsOutcome(c, s, p, turn, stamp, now), Advances(p, times)), p, curr, |s.hits| < c.limit)
  {
    var s1 := HitsOutcome(c, s, p, turn, stamp, now);
    if |s.hits| < c.limit && turn.Some? {
      var s2 := Step(c, s1, Advance(p, times[0]));
      RunFirst(c, s1, p, times);
      assert s2 == Allow(c, SetLast(c, s1.(clock := times[0]), p, turn.value), p, |s.history|);
      IdleWaits(c, s2, p, times[1..]);
    } else {
      IdleWaits(c, s1, p, times);
    }
  }

  /** The moderated part of a call: whether the gap has passed, or the instance may catch up. */
  lemma ModerationDecides(c: Config, s: System, p: nat, times: seq<real>)
    requires c.Moderated() ==> 0.0 < c.Ttl()
    requires c.limit != 0 && c.Moderated() && p < |s.procs| && s.procs[p].place == WatchLast
    requires |times| == 9 && After(s, times)
    ensures Answered(c, s, Run(c, s, Advances(p, times)), p, times[1],
              && |s.hits| < c.limit
              && (c.Gap() <= times[1] - LastOr(s.last) || MayCatchUp(c, s.procs[p].kickIn, |s.hits|)))
  {
    var s2 := ReadsClock(c, s, p, times);
    var s3 := Step(c, s2, Advance(p, times[2]));
    RunFirst(c, s2, p, times[2..]);
    assert times[2..][1..] == times[3..];
    if c.Gap() <= times[1] - LastOr(s.last) {
      WindowDecides(c, s3, p, Some(Turn(s.lastVer, times[1], OnTime)), times[1], times[3..]);
    } else {
      ElasticDecides(c, s3, p, times[1], times[3..]);
    }
  }

  /** WATCH and the clock reading of a moderated call. */
  lemma ReadsClock(c: Config, s: System, p: nat, times: seq<real>) returns (s2: System)
    requires c.limit != 0 && p < |s.procs| && s.procs[p].place == WatchLast
    requires |times| == 9 && After(s, times)
    ensures Run(c, s, Advances(p, times)) == Run(c, s2, Advances(p, times[2..]))
    ensures s2 == s.(clock := times[1], procs := s2.procs) && |s2.procs| == |s.procs|
    ensures s2.procs[p] == Process(TestGap(s.lastVer, times[1]), s.procs[p].kickIn)
  {
    var s1 := Step(c, s, Advance(p, times[0]));
    RunFirst(c, s, p, times);
    assert s1.procs[p] == Process(ReadClock(s.lastVer), s.procs[p].kickIn);
    s2 := Step(c, s1, Advance(p, times[1]));
    RunFirst(c, s1, p, times[1..]);
    assert times[1..][1..] == times[2..];
  }

  /** Too early after the last turn, the answer is whether the instance may catch up. */
  lemma ElasticDecides(c: Config, s: System, p: nat, curr: real, times: seq<real>)
    requires c.Moderated() ==> 0.0 < c.Ttl()
    requires c.limit != 0 && c.Moderated() && p < |s.procs| && s.procs[p].place == TestElastic(s.lastVer, curr)
    requires |times| == 6 && After(s, times)
    ensures Answered(c, s, Run(c, s, Advances(p, times)), p, curr,
              |s.hits| < c.limit && MayCatchUp(c, s.procs[p].kickIn, |s.hits|))
  {
    var s1 := Step(c, s, Advance(p, times[0]));
    RunFirst(c, s, p, times);
    if MayCatchUp(c, s.procs[p].kickIn, |s.hits|) {
      WindowDecides(c, s1, p, s1.procs[p].place.turn, curr, times[1..]);
    } else {
      IdleWaits(c, s1, p, times[1..]);
    }
  }

  /** The last turn ever taken, 0.0 if there was none. */
  function LastTurn(s: System): real {
    if s.turns == [] then 0.0 else s.turns[|s.turns| - 1].value
  }

  /** Reading the moderate key decides as the full record of turns would, even when the key has expired. */
  lemma ExpiredKeyDecidesTheSame(c: Config, s: System, curr: real)
    requires c.Valid() && TurnsInv(c, s) && s.clock <= curr
    ensures c.Gap() <= curr - LastOr(s.last) <==> c.Gap() <= curr - LastTurn(s)
  {
    GapFitsWindow(c);
  }

  /** After pruning, the window key counts exactly the hits of the full history newer than the bound. */
  lemma PrunedCount(c: Config, history: seq<real>, hits: seq<real>, now: real)
    requires Ascending(history) && KeyOk(c, history, hits, now)
    ensures |RemoveUpTo(hits, now - c.window)| == CountAbove(history, now - c.window)
  {
    var bound := now - c.window;
    var from := |history| - |hits|;
    SuffixAscends(history, from);
    RemoveUpToDropsPrefix(hits, bound);
    var kept := RemoveUpTo(hits, bound);
    var cut := |history| - |kept|;
    forall i | 0 <= i < |history| ensures history[i] <= bound <==> i < cut {
      if from <= i {
        assert hits[i - from] == history[i];
        assert cut <= i ==> kept[i - cut] == history[i];
      }
    }
    SuffixCountsAbove(history, cut, bound);
  }

  lemma PrunedKeyCountsHistory(c: Config, s: System, now: real)
    requires HitsInv(c, s) && s.clock <= now
    ensures |DropOldHits(s, now - c.window).hits| == CountAbove(s.history, now - c.window)
  {
    PrunedCount(c, s.history, s.hits, now);
  }

  /** The first two actions of a call: read the clock, prune the window key. */
  lemma BeginAndPrune(c: Config, s: System, p: nat, now: real, later: real) returns (s2: System)
    requires c.limit != 0 && p < |s.procs| && s.procs[p].place == Idle && s.clock < now < later
    ensures s2 == Step(c, Step(c, s, Begin(p, now)), Advance(p, later))
    ensures s2.clock == later && |s2.procs| == |s.procs|
    ensures s2.procs[p] == Process(if c.Moderated() then WatchLast else WatchHits(None), s.procs[p].kickIn)
    ensures s2.hits == DropOldHits(s, now - c.window).hits
    ensures s2.history == s.history && s2.grants == s.grants && s2.turns == s.turns && s2.last == s.last
  {
    var s1 := Step(c, s, Begin(p, now));
    assert s1.procs[p] == Process(Prune(now - c.window), s.procs[p].kickIn);
    s2 := Step(c, s1, Advance(p, later));
  }

  /** Of the call that began at `now`, everything up to the pruning is done, and the rest is untouched. */
  ghost predicate Pruned(c: Config, s: System, s2: System, p: nat, now: real)
    requires p < |s.procs|
  {
    && p < |s2.procs| && now < s2.clock
    && s2.procs[p] == Process(if c.Moderated() then WatchLast else WatchHits(None), s.procs[p].kickIn)
    && s2.hits == DropOldHits(s, now - c.window).hits
    && s2.history == s.history && s2.grants == s.grants && s2.turns == s.turns && s2.last == s.last
  }

  lemma CallStarts(c: Config, s: System, p: nat, times: seq<real>)
    requires c.limit != 0 && |times| == 11
    ensures Run(c, s, Call(p, times)) ==
            Run(c, Step(c, Step(c, s, Begin(p, times[0])), Advance(p, times[1])), Advances(p, times[2..]))
  {
    var rest := times[1..];
    RunConcat(c, s, [Begin(p, times[0])], Advances(p, rest));
    RunOne(c, s, Begin(p, times[0]));
    RunFirst(c, Step(c, s, Begin(p, times[0])), p, rest);
    assert rest[0] == times[1] && rest[1..] == times[2..];
  }

  lemma CallPrunes(c: Config, s: System, p: nat, times: seq<real>) returns (s2: System)
    requires c.limit != 0 && p < |s.procs| && s.procs[p].place == Idle
    requires |times| == 11 && After(s, times)
    ensures Run(c, s, Call(p, times)) == Run(c, s2, Advances(p, times[2..]))
    ensures Pruned(c, s, s2, p, times[0]) && s2.clock == times[1] && After(s2, times[2..])
  {
    CallStarts(c, s, p, times);
    s2 := BeginAndPrune(c, s, p, times[0], times[1]);
    SuffixAscends(times, 2);
  }

  /**
   * What a whole call did: if True, one hit, stamped during the call, one pop and,
   * if moderated, a turn at its clock reading; if False, nothing but pruning.
   */
  ghost predicate CallAnswered(c: Config, s: System, s': System, p: nat, now: real, curr: real, answer: bool) {
    && (answer ==>
          && |s'.history| == |s.history| + 1 && s.history <= s'.history
          && now < s'.history[|s.history|] <= s'.clock
          && s'.grants == s.grants + [Grant(p, |s.history|)]
          && |s'.turns| == |s.turns| + (if c.Moderated() then 1 else 0) && s.turns <= s'.turns
          && (c.Moderated() ==> s'.last == Some(curr) && LastTurn(s') == curr))
    && (!answer ==>
          && s'.history == s.history && s'.grants == s.grants && s'.turns == s.turns
          && s'.hits == DropOldHits(s, now - c.window).hits)
    && p < |s'.procs| && s'.procs[p].place == Idle
  }

  /** An answer after the pruning is an answer to the whole call. */
  lemma AnswersCall(c: Config, s: System, s2: System, s': System, p: nat, now: real, curr: real, answer: bool)
    requires p < |s.procs| && Pruned(c, s, s2, p, now) && Answered(c, s2, s', p, curr, answer)
    ensures CallAnswered(c, s, s', p, now, curr, answer)
  {
  }

  /** What follows the pruning. */
  lemma PrunedCallDecides(c: Config, s: System, p: nat, times: seq<real>, answer: bool)
    requires c.Moderated() ==> 0.0 < c.Ttl()
    requires c.limit != 0 && p < |s.procs|
    requires s.procs[p].place == if c.Moderated() then WatchLast else WatchHits(None)
    requires |times| == 9 && After(s, times)
    requires answer <==> |s.hits| < c.limit && (c.Moderated() ==>
               c.Gap() <= times[1] - LastOr(s.last) || MayCatchUp(c, s.procs[p].kickIn, |s.hits|))
    ensures Answered(c, s, Run(c, s, Advances(p, times)), p, times[1], answer)
  {
    if c.Moderated() {
      ModerationDecides(c, s, p, times);
    } else {
      WindowDecides(c, s, p, None, times[1], times);
    }
  }

  /** What the keys decide after pruning at `now`, with the clock reading `curr`. */
  ghost predicate KeysPermit(c: Config, s: System, kickIn: nat, now: real, curr: real)
    requires c.limit != 0
  {
    var live := |DropOldHits(s, now - c.window).hits|;
    live < c.limit && (c.Moderated() ==> c.Gap() <= curr - LastOr(s.last) || MayCatchUp(c, kickIn, live))
  }

  /** The same, seen from the state before the pruning. */
  lemma RestDecides(c: Config, s: System, s2: System, p: nat, now: real, rest: seq<real>, answer: bool)
    requires c.Moderated() ==> 0.0 < c.Ttl()
    requires c.limit != 0 && p < |s.procs| && Pruned(c, s, s2, p, now)
    requires |rest| == 9 && After(s2, rest)
    requires answer <==> KeysPermit(c, s, s.procs[p].kickIn, now, rest[1])
    ensures CallAnswered(c, s, Run(c, s2, Advances(p, rest)), p, now, rest[1], answer)
  {
    PrunedCallDecides(c, s2, p, rest, answer);
    AnswersCall(c, s, s2, Run(c, s2, Advances(p, rest)), p, now, rest[1], answer);
  }

  lemma CallDecides(c: Config, s: System, p: nat, times: seq<real>, answer: bool)
    requires c.Moderated() ==> 0.0 < c.Ttl()
    requires c.limit != 0 && p < |s.procs| && s.procs[p].place == Idle
    requires |times| == 11 && After(s, times)
    requires answer <==> KeysPermit(c, s, s.procs[p].kickIn, times[0], times[3])
    ensures CallAnswered(c, s, Run(c, s, Call(p, times)), p, times[0], times[3], answer)
  {
    var s2 := CallPrunes(c, s, p, times);
    RestDecides(c, s, s2, p, times[0], times[2..], answer);
  }

  /** The two keys, pruned and expired as they are, decide as the full histories would. */
  lemma KeysDecideAsHistory(c: Config, s: System, kickIn: nat, now: real, curr: real)
    requires c.Valid() && HitsInv(c, s) && TurnsInv(c, s) && s.clock <= now <= curr
    ensures Permitted(c, s.history, LastTurn(s), kickIn, now, curr) <==> KeysPermit(c, s, kickIn, now, curr)
  {
    PrunedKeyCountsHistory(c, s, now);
    ExpiredKeyDecidesTheSame(c, s, curr);
  }

  /** Some processes and some schedule lead to this state. */
  ghost predicate Reachable(c: Config, s: System)
    requires c.limit != 0
  {
    exists n, clock, schedule :: 0.0 <= clock && s == Run(c, Start(n, clock), schedule)
  }

  lemma KeysDecideWhenReachable(c: Config, s: System, kickIn: nat, now: real, curr: real)
    requires c.Valid() && Reachable(c, s) && s.clock <= now <= curr
    ensures Permitted(c, s.history, LastTurn(s), kickIn, now, curr) <==> KeysPermit(c, s, kickIn, now, curr)
  {
    var n, clock, schedule :| 0.0 <= clock && s == Run(c, Start(n, clock), schedule);
    RunInv(c, n, clock, schedule);
    KeysDecideAsHistory(c, s, kickIn, now, curr);
  }

  lemma ReachableCallAnswered(c: Config, s: System, p: nat, times: seq<real>)
    requires c.Valid() && Reachable(c, s)
    requires p < |s.procs| && s.procs[p].place == Idle && |times| == 11 && After(s, times)
    ensures CallAnswered(c, s, Run(c, s, Call(p, times)), p, times[0], times[3],
              Permitted(c, s.history, LastTurn(s), s.procs[p].kickIn, times[0], times[3]))
  {
    KeysDecideWhenReachable(c, s, s.procs[p].kickIn, times[0], times[3]);
    CallDecides(c, s, p, times, KeysPermit(c, s, s.procs[p].kickIn, times[0], times[3]));
  }

  /**
   * Main result: from any state a run can reach, a call that nobody interrupts
   * answers what the specification permits over the full, never pruned history.
   * True adds exactly one hit, one pop and, if moderated, one turn; False leaves
   * the history, the live hits and the turns alone.
   */
  lemma UninterruptedCallMeetsSpec(c: Config, s: System, p: nat, times: seq<real>) returns (answer: bool, s': System)
    requires c.Valid() && Reachable(c, s)
    requires p < |s.procs| && s.procs[p].place == Idle && |times| == 11 && After(s, times)
    ensures s' == Run(c, s, Call(p, times)) && p < |s'.procs| && s'.procs[p].place == Idle
    ensures answer <==> Permitted(c, s.history, LastTurn(s), s.procs[p].kickIn, times[0], times[3])
    ensures answer ==>
              && |s'.history| == |s.history| + 1 && s.history <= s'.history
              && times[0] < s'.history[|s.history|] <= s'.clock
              && s'.grants == s.grants + [Grant(p, |s.history|)]
              && |s'.turns| == |s.turns| + (if c.moderate && c.limit != 1 then 1 else 0) && s.turns <= s'.turns
              && (c.moderate && c.limit != 1 ==> s'.last == Some(times[3]) && LastTurn(s') == times[3])
    ensures !answer ==>
              && s'.history == s.history && s'.grants == s.grants && s'.turns == s.turns
              && s'.hits == RemoveUpTo(s.hits, times[0] - c.window)
  {
    answer := Permitted(c, s.history, LastTurn(s), s.procs[p].kickIn, times[0], times[3]);
    s' := Run(c, s, Call(p, times));
    ReachableCallAnswered(c, s, p, times);
  }
}
