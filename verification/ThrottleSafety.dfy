/**
 * What every interleaving of the throttle protocol keeps: the window bound, the
 * moderation gap, the catch-up condition, and that pops never outnumber hits.
 */
module ThrottleSafety {
  import opened Options
  import opened Stamps
  import opened ThrottleConfig
  import opened ThrottleProtocol

  ghost predicate HistoryOk(c: Config, history: seq<real>) {
    Ascending(history) && Spaced(history, c.limit, c.window)
  }

  /** The window key holds exactly the newest hits; the dropped ones have left the window. */
  ghost predicate KeyOk(c: Config, history: seq<real>, hits: seq<real>, clock: real) {
    && |hits| <= |history|
    && hits == history[|history| - |hits|..]
    && (forall i :: 0 <= i < |history| - |hits| ==> history[i] + c.window <= clock)
  }

  ghost predicate DeadlineOk(c: Config, history: seq<real>, hits: seq<real>, deadline: real) {
    hits != [] && history != [] ==> history[|history| - 1] + c.Ttl() <= deadline
  }

  ghost predicate Past(history: seq<real>, clock: real) {
    forall i :: 0 <= i < |history| ==> history[i] <= clock
  }

  ghost predicate HitsInv(c: Config, s: System) {
    && HistoryOk(c, s.history)
    && |s.owners| == |s.history|
    && Past(s.history, s.clock)
    && KeyOk(c, s.history, s.hits, s.clock)
    && DeadlineOk(c, s.history, s.hits, s.hitsDeadline)
  }

  /** A catch-up was taken by a process with `limit` pops that saw enough free slots. */
  ghost predicate TicketOk(c: Config, history: seq<real>, grants: seq<Grant>, who: nat, ticket: Ticket) {
    match ticket
    case OnTime => true
    case CatchUp(at, committed, granted, live) =>
      && c.elastic
      && granted <= |grants| && c.limit <= GrantsOf(grants[..granted], who)
      && c.elasticBuffer < c.limit - live
      && committed <= |history|
      && CountIn(history[..committed], at - c.window, at) <= live
  }

  /** A later turn is later, and a whole gap later unless it is a catch-up. */
  predicate TurnAfter(c: Config, prev: real, value: real, ticket: Ticket)
    requires c.limit != 0
  {
    prev < value && (ticket.OnTime? ==> c.Gap() <= value - prev)
  }

  ghost predicate TurnsOk(c: Config, history: seq<real>, grants: seq<Grant>, turns: seq<Taken>, clock: real)
    requires c.limit != 0
  {
    && (forall i :: 0 <= i < |turns| ==> 0.0 <= turns[i].value <= clock)
    && (forall i :: 0 <= i < |turns| ==> TicketOk(c, history, grants, turns[i].who, turns[i].ticket))
    && (forall i, j :: 0 <= i && j == i + 1 && j < |turns| ==>
          TurnAfter(c, turns[i].value, turns[j].value, turns[j].ticket))
  }

  /** The moderate key holds the last turn, until its life is over. */
  ghost predicate LastOk(c: Config, turns: seq<Taken>, last: Option<real>, deadline: real, clock: real) {
    match last
    case Some(v) => turns != [] && v == turns[|turns| - 1].value && v + c.Ttl() <= deadline
    case None => turns != [] ==> turns[|turns| - 1].value + c.Ttl() <= clock
  }

  ghost predicate TurnsInv(c: Config, s: System)
    requires c.limit != 0
  {
    TurnsOk(c, s.history, s.grants, s.turns, s.clock) && LastOk(c, s.turns, s.last, s.lastDeadline, s.clock)
  }

  /** Every grant is paid for by its own committed hit. */
  ghost predicate GrantsInv(s: System) {
    && |s.owners| == |s.history|
    && (forall i :: 0 <= i < |s.grants| ==>
          s.grants[i].hit < |s.history| && s.owners[s.grants[i].hit] == s.grants[i].who)
    && (forall i, j :: 0 <= i < j < |s.grants| ==> s.grants[i].hit != s.grants[j].hit)
  }

  /** What a turn still knows, as long as nobody else has taken one. */
  ghost predicate TurnInv(c: Config, s: System, p: nat, t: Turn)
    requires c.limit != 0
  {
    && t.ver <= s.lastVer
    && 0.0 <= t.curr <= s.clock
    && TicketOk(c, s.history, s.grants, p, t.ticket)
    && (t.ver == s.lastVer && s.turns != [] ==>
          TurnAfter(c, s.turns[|s.turns| - 1].value, t.curr, t.ticket))
  }

  ghost predicate MaybeTurnInv(c: Config, s: System, p: nat, t: Option<Turn>)
    requires c.limit != 0
  {
    t.Some? ==> TurnInv(c, s, p, t.value)
  }

  /** What process p knows at each place. */
  ghost predicate PlaceInv(c: Config, s: System, p: nat, place: Place)
    requires c.limit != 0
  {
    match place
    case Idle => true
    case Prune(expires) => expires + c.window <= s.clock
    case WatchLast => true
    case ReadClock(v) => v <= s.lastVer
    case TestGap(v, curr) =>
      && v <= s.lastVer && 0.0 <= curr <= s.clock
      && (v == s.lastVer && s.turns != [] ==>
            var prev := s.turns[|s.turns| - 1].value;
            prev < curr && (s.last.None? ==> prev + c.Ttl() <= curr))
    case TestElastic(v, curr) =>
      && v <= s.lastVer && 0.0 <= curr <= s.clock
      && (v == s.lastVer && s.turns != [] ==> s.turns[|s.turns| - 1].value < curr)
    case WatchHits(t) => MaybeTurnInv(c, s, p, t)
    case CountHits(t, v) => MaybeTurnInv(c, s, p, t) && v <= s.hitsVer
    case StampHit(t, v) =>
      MaybeTurnInv(c, s, p, t) && v <= s.hitsVer && (v == s.hitsVer ==> |s.hits| < c.limit)
    case CommitHit(t, v, stamp) =>
      && MaybeTurnInv(c, s, p, t) && v <= s.hitsVer && stamp <= s.clock
      && (v == s.hitsVer ==> FreshStamp(c, s, stamp))
    case CommitTurn(t, hit) =>
      && TurnInv(c, s, p, t)
      && |s.owners| == |s.history|
      && hit < |s.history| && s.owners[hit] == p
      && (forall i :: 0 <= i < |s.grants| ==> s.grants[i].hit != hit)
  }

  /** There is room for the stamp, it is the newest, and every dropped hit has left its window. */
  ghost predicate FreshStamp(c: Config, s: System, stamp: real) {
    && |s.hits| < c.limit
    && (forall i :: 0 <= i < |s.history| ==> s.history[i] < stamp)
    && (forall i :: 0 <= i < |s.history| - |s.hits| ==> s.history[i] + c.window <= stamp)
  }

  /** The elastic counter is the process's own number of pops, capped at the limit. */
  ghost predicate ProcessInv(c: Config, s: System, p: nat)
    requires c.limit != 0 && p < |s.procs|
  {
    && PlaceInv(c, s, p, s.procs[p].place)
    && s.procs[p].kickIn == (if GrantsOf(s.grants, p) < c.limit then GrantsOf(s.grants, p) else c.limit)
  }

  ghost predicate Inv(c: Config, s: System) {
    && c.Valid()
    && 0.0 <= s.clock
    && HitsInv(c, s)
    && TurnsInv(c, s)
    && GrantsInv(s)
    && (forall p :: 0 <= p < |s.procs| ==> ProcessInv(c, s, p))
  }

  /**
   * What the other processes may rely on when somebody acts: time and versions
   * only grow, histories are only extended, and an unchanged version means an
   * unchanged key.
   */
  ghost predicate Follows(s: System, s': System) {
    && s.clock <= s'.clock
    && s.hitsVer <= s'.hitsVer && s.lastVer <= s'.lastVer
    && s.history <= s'.history && s.owners <= s'.owners && s.grants <= s'.grants
    && |s.owners| == |s.history| && |s'.owners| == |s'.history|
    && (s.hitsVer == s'.hitsVer ==> s.hits == s'.hits && s.history == s'.history)
    && (s.lastVer == s'.lastVer ==> s.last == s'.last && s.turns == s'.turns)
  }

  lemma TicketStable(c: Config, s: System, s': System, who: nat, t: Ticket)
    requires TicketOk(c, s.history, s.grants, who, t) && s.history <= s'.history && s.grants <= s'.grants
    ensures TicketOk(c, s'.history, s'.grants, who, t)
  {
    if t.CatchUp? {
      assert s.history[..t.committed] == s'.history[..t.committed];
      assert s.grants[..t.granted] == s'.grants[..t.granted];
    }
  }

  lemma TurnStable(c: Config, s: System, s': System, p: nat, t: Option<Turn>)
    requires c.limit != 0 && Follows(s, s') && MaybeTurnInv(c, s, p, t)
    ensures MaybeTurnInv(c, s', p, t)
  {
    if t.Some? {
      TicketStable(c, s, s', p, t.value.ticket);
    }
  }

  /** A step of another process, or of Redis, keeps what process q knows. */
  lemma PlaceStable(c: Config, s: System, s': System, q: nat, place: Place)
    requires c.limit != 0 && Follows(s, s') && PlaceInv(c, s, q, place)
    requires forall i :: |s.grants| <= i < |s'.grants| ==>
               s'.grants[i].hit < |s'.history| && s'.owners[s'.grants[i].hit] == s'.grants[i].who != q
    ensures PlaceInv(c, s', q, place)
  {
    match place
    case WatchHits(t) => TurnStable(c, s, s', q, t);
    case CountHits(t, v) => TurnStable(c, s, s', q, t);
    case StampHit(t, v) => TurnStable(c, s, s', q, t);
    case CommitHit(t, v, stamp) => TurnStable(c, s, s', q, t);
    case CommitTurn(t, hit) =>
      TurnStable(c, s, s', q, Some(t));
      forall i | 0 <= i < |s'.grants| ensures s'.grants[i].hit != hit {
        assert i < |s.grants| ==> s'.grants[i] == s.grants[i];
      }
    case _ =>
  }

  /** The part of the invariant that only speaks of processes survives any step they may rely on. */
  lemma ProcessesStable(c: Config, s: System, s': System)
    requires Inv(c, s) && Follows(s, s') && s'.procs == s.procs && s'.grants == s.grants
    ensures forall p :: 0 <= p < |s'.procs| ==> ProcessInv(c, s', p)
  {
    forall p | 0 <= p < |s'.procs| ensures ProcessInv(c, s', p) {
      assert ProcessInv(c, s, p);
      PlaceStable(c, s, s', p, s.procs[p].place);
    }
  }

  /** Turns do not depend on the hits key, only on hits and pops being added to their records. */
  lemma TurnsStable(c: Config, s: System, s': System)
    requires c.limit != 0 && TurnsInv(c, s) && s.history <= s'.history && s.grants <= s'.grants && s.clock <= s'.clock
    requires s'.turns == s.turns && s'.last == s.last && s'.lastDeadline == s.lastDeadline
    ensures TurnsInv(c, s')
  {
    forall i | 0 <= i < |s.turns| ensures TicketOk(c, s'.history, s'.grants, s.turns[i].who, s.turns[i].ticket) {
      TicketStable(c, s, s', s.turns[i].who, s.turns[i].ticket);
    }
  }

  lemma TimePasses(c: Config, s: System, now: real)
    requires Inv(c, s) && s.clock <= now
    ensures Inv(c, s.(clock := now))
  {
    ProcessesStable(c, s, s.(clock := now));
    TurnsStable(c, s, s.(clock := now));
  }

  lemma Moves(c: Config, s: System, p: nat, place: Place)
    requires Inv(c, s) && p < |s.procs| && PlaceInv(c, s, p, place)
    ensures Inv(c, Goto(s, p, place))
  {
    var s' := Goto(s, p, place);
    TurnsStable(c, s, s');
    forall q | 0 <= q < |s'.procs| ensures ProcessInv(c, s', q) {
      assert ProcessInv(c, s, q);
      PlaceStable(c, s, s', q, if q == p then place else s.procs[q].place);
    }
  }

  lemma DropKeepsKey(c: Config, history: seq<real>, hits: seq<real>, clock: real, bound: real)
    requires KeyOk(c, history, hits, clock) && Ascending(hits) && bound + c.window <= clock
    ensures KeyOk(c, history, RemoveUpTo(hits, bound), clock)
  {
    var kept := RemoveUpTo(hits, bound);
    var n := |history| - |hits|;
    RemoveUpToDropsPrefix(hits, bound);
    forall i | 0 <= i < |history| - |kept| ensures history[i] + c.window <= clock {
      assert n <= i ==> hits[i - n] == history[i];
    }
  }

  lemma SuffixAscends(s: seq<real>, n: nat)
    requires Ascending(s) && n <= |s|
    ensures Ascending(s[n..])
  {
  }

  lemma Drops(c: Config, s: System, bound: real)
    requires Inv(c, s) && bound + c.window <= s.clock
    ensures Inv(c, DropOldHits(s, bound))
  {
    var s' := DropOldHits(s, bound);
    SuffixAscends(s.history, |s.history| - |s.hits|);
    DropKeepsKey(c, s.history, s.hits, s.clock, bound);
    assert DeadlineOk(c, s'.history, s'.hits, s'.hitsDeadline);
    ProcessesStable(c, s, s');
    TurnsStable(c, s, s');
  }

  /** The heart of the bound: a hit committed on an unchanged key is `window` after the `limit`-th before it. */
  lemma HitKeepsSpacing(c: Config, s: System, stamp: real)
    requires HitsInv(c, s) && FreshStamp(c, s, stamp)
    ensures HistoryOk(c, s.history + [stamp])
  {
    var h := s.history + [stamp];
    forall i, j | 0 <= i && j == i + c.limit && j < |h| ensures h[i] + c.window <= h[j] {
      assert j < |s.history| ==> s.history[i] + c.window <= s.history[j];
    }
  }

  /** Time passing keeps what the key holds, and everything in it is past. */
  lemma KeyNewer(c: Config, history: seq<real>, hits: seq<real>, clock: real, now: real)
    requires KeyOk(c, history, hits, clock) && Past(history, clock) && clock < now
    ensures KeyOk(c, history, hits, now)
    ensures forall i :: 0 <= i < |hits| ==> hits[i] < now
  {
    var n := |history| - |hits|;
    forall i | 0 <= i < |hits| ensures hits[i] < now {
      assert hits[i] == history[n + i];
    }
  }

  lemma KeyGrows(c: Config, history: seq<real>, hits: seq<real>, clock: real, stamp: real)
    requires KeyOk(c, history, hits, clock)
    ensures KeyOk(c, history + [stamp], hits + [stamp], clock)
  {
    var n := |history| - |hits|;
    assert (history + [stamp])[n..] == history[n..] + [stamp];
  }

  lemma HitKeepsHitsInv(c: Config, s: System, p: nat, stamp: real)
    requires HitsInv(c, s) && FreshStamp(c, s, stamp) && stamp <= s.clock
    ensures HitsInv(c, AddHit(c, s, p, stamp))
  {
    InsertNewest(s.hits, stamp);
    HitKeepsSpacing(c, s, stamp);
    KeyGrows(c, s.history, s.hits, s.clock, stamp);
  }

  lemma Hits(c: Config, s: System, p: nat, stamp: real)
    requires Inv(c, s) && FreshStamp(c, s, stamp) && stamp <= s.clock
    ensures Inv(c, AddHit(c, s, p, stamp))
    ensures forall i :: 0 <= i < |s.grants| ==> s.grants[i].hit != |s.history|
  {
    var s' := AddHit(c, s, p, stamp);
    HitKeepsHitsInv(c, s, p, stamp);
    ProcessesStable(c, s, s');
    TurnsStable(c, s, s');
  }

  lemma TurnExtends(c: Config, s: System, p: nat, t: Turn)
    requires c.limit != 0 && TurnsInv(c, s) && TurnInv(c, s, p, t) && t.ver == s.lastVer
    ensures TurnsOk(c, s.history, s.grants, s.turns + [Taken(p, t.curr, t.ticket)], s.clock)
  {
  }

  lemma TakesTurn(c: Config, s: System, p: nat, t: Turn)
    requires Inv(c, s) && p < |s.procs| && TurnInv(c, s, p, t) && t.ver == s.lastVer
    ensures Inv(c, SetLast(c, s, p, t))
  {
    TurnExtends(c, s, p, t);
    ProcessesStable(c, s, SetLast(c, s, p, t));
  }

  lemma Grants(c: Config, s: System, p: nat, hit: nat)
    requires Inv(c, s) && p < |s.procs|
    requires hit < |s.history| && s.owners[hit] == p
    requires forall i :: 0 <= i < |s.grants| ==> s.grants[i].hit != hit
    ensures Inv(c, Allow(c, s, p, hit))
  {
    var s' := Allow(c, s, p, hit);
    assert s'.grants[..|s'.grants| - 1] == s.grants;
    TurnsStable(c, s, s');
    forall q | 0 <= q < |s'.procs| ensures ProcessInv(c, s', q) {
      assert ProcessInv(c, s, q);
      if q != p {
        PlaceStable(c, s, s', q, s.procs[q].place);
      }
    }
  }

  lemma HitsExpire(c: Config, s: System)
    requires Inv(c, s) && s.hits != [] && s.hitsDeadline <= s.clock
    ensures Inv(c, s.(hits := [], hitsVer := s.hitsVer + 1))
  {
    var s' := s.(hits := [], hitsVer := s.hitsVer + 1);
    ProcessesStable(c, s, s');
    TurnsStable(c, s, s');
  }

  lemma LastExpires(c: Config, s: System)
    requires Inv(c, s) && s.last.Some? && s.lastDeadline <= s.clock
    ensures Inv(c, s.(last := None, lastVer := s.lastVer + 1))
  {
    ProcessesStable(c, s, s.(last := None, lastVer := s.lastVer + 1));
    assert LastOk(c, s.turns, None, s.lastDeadline, s.clock);
  }

  lemma TestGapMoves(c: Config, s: System, p: nat)
    requires Inv(c, s) && p < |s.procs| && s.procs[p].place.TestGap?
    ensures Inv(c, Issue(c, s, p))
  {
    assert ProcessInv(c, s, p);
    var TestGap(v, curr) := s.procs[p].place;
    GapFitsWindow(c);
    Moves(c, s, p, if curr - LastOr(s.last) < c.Gap()
                   then TestElastic(v, curr) else WatchHits(Some(Turn(v, curr, OnTime))));
  }

  lemma TestElasticMoves(c: Config, s: System, p: nat)
    requires Inv(c, s) && p < |s.procs| && s.procs[p].place.TestElastic?
    ensures Inv(c, Issue(c, s, p))
  {
    assert ProcessInv(c, s, p);
    var TestElastic(v, curr) := s.procs[p].place;
    var live := |s.hits|;
    var t := CatchUp(s.clock, |s.history|, |s.grants|, live);
    if c.elastic && s.procs[p].kickIn == c.limit && c.limit - live > c.elasticBuffer {
      assert s.history[..|s.history|] == s.history && s.grants[..|s.grants|] == s.grants;
      CountLive(c, s);
      Moves(c, s, p, WatchHits(Some(Turn(v, curr, t))));
    } else {
      Moves(c, s, p, Idle);
    }
  }

  /** The hits in the window that ends now are all still in the window key. */
  lemma CountLive(c: Config, s: System)
    requires HitsInv(c, s)
    ensures CountIn(s.history, s.clock - c.window, s.clock) <= |s.hits|
  {
    SkipOld(s.history, |s.history| - |s.hits|, s.clock - c.window, s.clock);
  }

  lemma {:induction false} SkipOld(h: seq<real>, n: nat, lo: real, hi: real)
    requires n <= |h| && forall i :: 0 <= i < n ==> h[i] <= lo
    ensures CountIn(h, lo, hi) <= |h| - n
  {
    if n != 0 {
      SkipOld(h[1..], n - 1, lo, hi);
    } else {
      CountInAtMost(h, lo, hi, |h|);
    }
  }

  lemma CommitHitMoves(c: Config, s: System, p: nat)
    requires Inv(c, s) && p < |s.procs| && s.procs[p].place.CommitHit?
    ensures Inv(c, Issue(c, s, p))
  {
    assert ProcessInv(c, s, p);
    var CommitHit(turn, v, stamp) := s.procs[p].place;
    if s.hitsVer != v {
      Moves(c, s, p, Idle);
    } else {
      var s' := AddHit(c, s, p, stamp);
      Hits(c, s, p, stamp);
      match turn
      case None => Grants(c, s', p, |s.history|);
      case Some(t) =>
        TurnStable(c, s, s', p, turn);
        Moves(c, s', p, CommitTurn(t, |s.history|));
    }
  }

  lemma PruneMoves(c: Config, s: System, p: nat)
    requires Inv(c, s) && p < |s.procs| && s.procs[p].place.Prune?
    ensures Inv(c, Issue(c, s, p))
  {
    assert ProcessInv(c, s, p);
    var expires := s.procs[p].place.expires;
    Drops(c, s, expires);
    Moves(c, DropOldHits(s, expires), p, if c.Moderated() then WatchLast else WatchHits(None));
  }

  lemma CountHitsMoves(c: Config, s: System, p: nat)
    requires Inv(c, s) && p < |s.procs| && s.procs[p].place.CountHits?
    ensures Inv(c, Issue(c, s, p))
  {
    assert ProcessInv(c, s, p);
    var CountHits(turn, v) := s.procs[p].place;
    Moves(c, s, p, if |s.hits| < c.limit then StampHit(turn, v) else Idle);
  }

  lemma CommitTurnMoves(c: Config, s: System, p: nat)
    requires Inv(c, s) && p < |s.procs| && s.procs[p].place.CommitTurn?
    ensures Inv(c, Issue(c, s, p))
  {
    assert ProcessInv(c, s, p);
    var CommitTurn(t, hit) := s.procs[p].place;
    if s.lastVer == t.ver {
      TakesTurn(c, s, p, t);
      Grants(c, SetLast(c, s, p, t), p, hit);
    } else {
      Moves(c, s, p, Idle);
    }
  }

  /** This action happens strictly after everything recorded so far. */
  ghost predicate Ticked(s: System) {
    && (forall i :: 0 <= i < |s.history| ==> s.history[i] < s.clock)
    && (forall i :: 0 <= i < |s.turns| ==> s.turns[i].value < s.clock)
  }

  lemma IssuePreserves(c: Config, s: System, p: nat)
    requires Inv(c, s) && Ticked(s) && p < |s.procs|
    ensures Inv(c, Issue(c, s, p))
  {
    assert ProcessInv(c, s, p);
    match s.procs[p].place
    case Idle =>
    case Prune(expires) => PruneMoves(c, s, p);
    case WatchLast => Moves(c, s, p, ReadClock(s.lastVer));
    case ReadClock(v) => Moves(c, s, p, TestGap(v, s.clock));
    case TestGap(v, curr) => TestGapMoves(c, s, p);
    case TestElastic(v, curr) => TestElasticMoves(c, s, p);
    case WatchHits(turn) => Moves(c, s, p, CountHits(turn, s.hitsVer));
    case CountHits(turn, v) => CountHitsMoves(c, s, p);
    case StampHit(turn, v) => Moves(c, s, p, CommitHit(turn, v, s.clock));
    case CommitHit(turn, v, stamp) => CommitHitMoves(c, s, p);
    case CommitTurn(t, hit) => CommitTurnMoves(c, s, p);
  }

  /** What an enabled action does, once the clock has moved to its time. */
  function Effect(c: Config, s: System, a: Action): System
    requires c.limit != 0 && (a.Begin? || a.Advance? ==> a.p < |s.procs|)
  {
    match a
    case Begin(p, now) => Goto(s, p, Prune(now - c.window))
    case Advance(p, _) => Issue(c, s, p)
    case ExpireHits(_) => s.(hits := [], hitsVer := s.hitsVer + 1)
    case ExpireLast(_) => s.(last := None, lastVer := s.lastVer + 1)
  }

  predicate Enabled(s: System, a: Action) {
    && s.clock < a.now
    && match a
       case Begin(p, _) => p < |s.procs| && s.procs[p].place == Idle
       case Advance(p, _) => p < |s.procs|
       case ExpireHits(now) => s.hits != [] && s.hitsDeadline <= now
       case ExpireLast(now) => s.last.Some? && s.lastDeadline <= now
  }

  lemma StepIsEffect(c: Config, s: System, a: Action)
    requires c.limit != 0
    ensures Step(c, s, a) == if Enabled(s, a) then Effect(c, s.(clock := a.now), a) else s
  {
  }

  lemma BeginPreserves(c: Config, s: System, a: Action)
    requires Inv(c, s) && a.Begin? && Enabled(s, a)
    ensures Inv(c, Effect(c, s.(clock := a.now), a))
  {
    TimePasses(c, s, a.now);
    Moves(c, s.(clock := a.now), a.p, Prune(a.now - c.window));
  }

  lemma ClockTicks(c: Config, s: System, now: real)
    requires Inv(c, s) && s.clock < now
    ensures Inv(c, s.(clock := now)) && Ticked(s.(clock := now))
  {
    TimePasses(c, s, now);
  }

  lemma AdvancePreserves(c: Config, s: System, a: Action)
    requires Inv(c, s) && a.Advance? && Enabled(s, a)
    ensures Inv(c, Effect(c, s.(clock := a.now), a))
  {
    ClockTicks(c, s, a.now);
    IssuePreserves(c, s.(clock := a.now), a.p);
  }

  lemma ExpireHitsPreserves(c: Config, s: System, a: Action)
    requires Inv(c, s) && a.ExpireHits? && Enabled(s, a)
    ensures Inv(c, Effect(c, s.(clock := a.now), a))
  {
    TimePasses(c, s, a.now);
    HitsExpire(c, s.(clock := a.now));
  }

  lemma ExpireLastPreserves(c: Config, s: System, a: Action)
    requires Inv(c, s) && a.ExpireLast? && Enabled(s, a)
    ensures Inv(c, Effect(c, s.(clock := a.now), a))
  {
    TimePasses(c, s, a.now);
    LastExpires(c, s.(clock := a.now));
  }

  lemma StepPreserves(c: Config, s: System, a: Action)
    requires Inv(c, s)
    ensures Inv(c, Step(c, s, a))
  {
    StepIsEffect(c, s, a);
    if Enabled(s, a) {
      match a
      case Begin(_, _) => BeginPreserves(c, s, a);
      case Advance(_, _) => AdvancePreserves(c, s, a);
      case ExpireHits(_) => ExpireHitsPreserves(c, s, a);
      case ExpireLast(_) => ExpireLastPreserves(c, s, a);
    }
  }

  lemma StartKeys(c: Config, n: nat, clock: real)
    requires c.limit != 0
    ensures var s := Start(n, clock); HitsInv(c, s) && TurnsInv(c, s) && GrantsInv(s)
  {
  }

  lemma StartProcess(c: Config, n: nat, clock: real, p: nat)
    requires c.limit != 0 && p < n
    ensures ProcessInv(c, Start(n, clock), p)
  {
    assert Start(n, clock).procs[p] == Process(Idle, 0);
  }

  lemma StartInv(c: Config, n: nat, clock: real)
    requires c.Valid() && 0.0 <= clock
    ensures Inv(c, Start(n, clock))
  {
    StartKeys(c, n, clock);
    forall p | 0 <= p < |Start(n, clock).procs| ensures ProcessInv(c, Start(n, clock), p) {
      StartProcess(c, n, clock, p);
    }
  }

  /** The invariant holds after every schedule of every number of processes. */
  lemma {:induction false} RunInv(c: Config, n: nat, clock: real, schedule: seq<Action>)
    requires c.Valid() && 0.0 <= clock
    ensures Inv(c, Run(c, Start(n, clock), schedule))
    decreases |schedule|
  {
    if schedule == [] {
      StartInv(c, n, clock);
    } else {
      var before := schedule[..|schedule| - 1];
      RunInv(c, n, clock, before);
      StepPreserves(c, Run(c, Start(n, clock), before), schedule[|schedule| - 1]);
    }
  }

  /**
   * Main result: whatever the processes and Redis do, committed hits come out in
   * strictly increasing order and no interval (t - window, t] holds more than
   * `limit` of them.
   */
  lemma HitsNeverExceedLimit(c: Config, n: nat, clock: real, schedule: seq<Action>)
    requires c.Valid() && 0.0 <= clock
    ensures var s := Run(c, Start(n, clock), schedule);
            Ascending(s.history) && WindowBounded(s.history, c.limit, c.window)
  {
    RunInv(c, n, clock, schedule);
    var s := Run(c, Start(n, clock), schedule);
    WindowBoundIsSpacing(s.history, c.limit, c.window);
  }

  /** The number of pops allowed on hits stamped in (lo, hi]. */
  function GrantsIn(grants: seq<Grant>, history: seq<real>, lo: real, hi: real): nat
    requires forall i :: 0 <= i < |grants| ==> grants[i].hit < |history|
  {
    if grants == [] then 0
    else
      var g := grants[|grants| - 1];
      GrantsIn(grants[..|grants| - 1], history, lo, hi) + if lo < history[g.hit] <= hi then 1 else 0
  }

  /** The hits that paid for those pops, all different. */
  lemma {:induction false} PaidHits(grants: seq<Grant>, history: seq<real>, lo: real, hi: real)
    returns (hits: set<nat>)
    requires forall i :: 0 <= i < |grants| ==> grants[i].hit < |history|
    requires forall i, j :: 0 <= i < j < |grants| ==> grants[i].hit != grants[j].hit
    ensures |hits| == GrantsIn(grants, history, lo, hi)
    ensures forall k :: k in hits ==>
              k < |history| && lo < history[k] <= hi && exists i :: 0 <= i < |grants| && grants[i].hit == k
    decreases |grants|
  {
    hits := {};
    if grants == [] {
    } else {
      var n := |grants| - 1;
      hits := PaidHits(grants[..n], history, lo, hi);
      var k := grants[n].hit;
      if lo < history[k] <= hi {
        assert k !in hits;
        hits := hits + {k};
      }
    }
  }

  /**
   * Main result: in every run, each pop that was allowed is paid for by a hit of
   * its own process that pays for no other, so pops never outnumber hits, and
   * pops obey the window bound too.  This holds although a hit can commit and the
   * moderate key's transaction after it fail.
   */
  lemma PopsNeverExceedHits(c: Config, n: nat, clock: real, schedule: seq<Action>, lo: real, hi: real)
    requires c.Valid() && 0.0 <= clock
    ensures var s := Run(c, Start(n, clock), schedule);
            && GrantsInv(s)
            && GrantsIn(s.grants, s.history, lo, hi) <= CountIn(s.history, lo, hi)
            && (hi == lo + c.window ==> GrantsIn(s.grants, s.history, lo, hi) <= c.limit)
  {
    var s := Run(c, Start(n, clock), schedule);
    RunInv(c, n, clock, schedule);
    var paid := PaidHits(s.grants, s.history, lo, hi);
    PositionsCounted(s.history, paid, lo, hi);
    HitsNeverExceedLimit(c, n, clock, schedule);
  }

  lemma RunTurns(c: Config, n: nat, clock: real, schedule: seq<Action>)
    requires c.Valid() && 0.0 <= clock
    ensures TurnsInv(c, Run(c, Start(n, clock), schedule))
  {
    RunInv(c, n, clock, schedule);
  }

  lemma TurnsKeepGap(c: Config, turns: seq<Taken>, history: seq<real>, grants: seq<Grant>, clock: real)
    requires c.limit != 0 && !c.elastic && TurnsOk(c, history, grants, turns, clock)
    ensures forall i, j :: 0 <= i && j == i + 1 && j < |turns| ==> c.window <= (turns[j].value - turns[i].value) * c.limit as real
  {
    forall i, j | 0 <= i && j == i + 1 && j < |turns|
      ensures c.window <= (turns[j].value - turns[i].value) * c.limit as real
    {
      assert TicketOk(c, history, grants, turns[j].who, turns[j].ticket);
      assert TurnAfter(c, turns[i].value, turns[j].value, turns[j].ticket);
      GapPassed(c, turns[j].value - turns[i].value);
    }
  }

  /**
   * Main result: with elastic catch-up off, successive values of the moderate key
   * are at least window/limit apart in every run, the key's expiry included: limit
   * times the distance is no shorter than the window.
   */
  lemma ModerationGap(c: Config, n: nat, clock: real, schedule: seq<Action>) returns (s: System)
    requires c.Valid() && 0.0 <= clock && !c.elastic
    ensures s == Run(c, Start(n, clock), schedule)
    ensures forall i, j :: 0 <= i && j == i + 1 && j < |s.turns| ==>
              c.window <= (s.turns[j].value - s.turns[i].value) * c.limit as real
  {
    RunTurns(c, n, clock, schedule);
    s := Run(c, Start(n, clock), schedule);
    TurnsKeepGap(c, s.turns, s.history, s.grants, s.clock);
  }

  lemma ShortTurnIsCatchUp(c: Config, s: System, i: nat)
    requires c.limit != 0 && TurnsInv(c, s)
    requires i + 1 < |s.turns| && (s.turns[i + 1].value - s.turns[i].value) * c.limit as real < c.window
    ensures var ticket := s.turns[i + 1].ticket;
            ticket.CatchUp? && TicketOk(c, s.history, s.grants, s.turns[i + 1].who, ticket)
  {
    GapPassed(c, s.turns[i + 1].value - s.turns[i].value);
    assert TurnAfter(c, s.turns[i].value, s.turns[i + 1].value, s.turns[i + 1].ticket);
    assert TicketOk(c, s.history, s.grants, s.turns[i + 1].who, s.turns[i + 1].ticket);
  }

  /**
   * Main result: a gap shorter than window/limit is always a catch-up.  It was
   * taken by a process that, when it checked, had itself been allowed `limit` pops
   * already, and the hits committed by then in the window before the check left
   * more than `elasticBuffer` slots free.
   */
  lemma ShortGapIsCatchUp(c: Config, n: nat, clock: real, schedule: seq<Action>, s: System, i: nat)
    requires c.Valid() && 0.0 <= clock && s == Run(c, Start(n, clock), schedule)
    requires i + 1 < |s.turns| && (s.turns[i + 1].value - s.turns[i].value) * c.limit as real < c.window
    ensures var ticket := s.turns[i + 1].ticket;
            && c.elastic && ticket.CatchUp?
            && ticket.granted <= |s.grants| && ticket.committed <= |s.history|
            && c.limit <= GrantsOf(s.grants[..ticket.granted], s.turns[i + 1].who)
            && c.elasticBuffer < c.limit - CountIn(s.history[..ticket.committed], ticket.at - c.window, ticket.at)
  {
    RunTurns(c, n, clock, schedule);
    ShortTurnIsCatchUp(c, s, i);
  }

  /** In every run the elastic counter of a process is its own number of pops, capped at the limit. */
  lemma KickInCountsOwnPops(c: Config, n: nat, clock: real, schedule: seq<Action>, p: nat)
    requires c.Valid() && 0.0 <= clock
    requires p < |Run(c, Start(n, clock), schedule).procs|
    ensures var s := Run(c, Start(n, clock), schedule);
            var own := GrantsOf(s.grants, p);
            s.procs[p].kickIn == if own < c.limit then own else c.limit
  {
    RunInv(c, n, clock, schedule);
    assert ProcessInv(c, Run(c, Start(n, clock), schedule), p);
  }
}
