/**
 * N processes pop from one throttled queue.  Each runs `allowed` as a series of
 * separate Redis commands and clock readings; an action is one of them.  Every
 * action happens at a strictly later time than the one before, so no two
 * processes read the same stamp.
 */
module ThrottleProtocol {
  import opened Options
  import opened Stamps
  import opened ThrottleConfig

  /**
   * Why a process may take its turn at the moderate key.  A catch-up remembers when
   * it was checked, how many hits and pops had been committed by then, and the slots
   * it saw taken.
   */
  datatype Ticket =
    | OnTime
    | CatchUp(at: real, committed: nat, granted: nat, live: nat)

  /** What a moderated call carries on to its second transaction. */
  datatype Turn = Turn(ver: nat, curr: real, ticket: Ticket)

  /** Where a process stands in `allowed`: the command it is about to issue. */
  datatype Place =
    | Idle
    | Prune(expires: real)
    | WatchLast
    | ReadClock(lastVer: nat)
    | TestGap(lastVer: nat, curr: real)
    | TestElastic(lastVer: nat, curr: real)
    | WatchHits(turn: Option<Turn>)
    | CountHits(turn: Option<Turn>, hitsVer: nat)
    | StampHit(turn: Option<Turn>, hitsVer: nat)
    | CommitHit(turn: Option<Turn>, hitsVer: nat, stamp: real)
    | CommitTurn(taken: Turn, hit: nat)

  datatype Process = Process(place: Place, kickIn: nat)

  /** A pop that was allowed: who, and the index of the hit that paid for it. */
  datatype Grant = Grant(who: nat, hit: nat)

  /** A value written to the moderate key. */
  datatype Taken = Taken(who: nat, value: real, ticket: Ticket)

  /**
   * `hits`, `last` and their deadlines and versions are the two Redis keys;
   * `history`, `owners`, `turns` and `grants` record everything ever committed.
   */
  datatype System = System(
    clock: real,
    hits: seq<real>, hitsDeadline: real, hitsVer: nat,
    last: Option<real>, lastDeadline: real, lastVer: nat,
    procs: seq<Process>,
    history: seq<real>, owners: seq<nat>,
    turns: seq<Taken>, grants: seq<Grant>)

  datatype Action =
    | Begin(p: nat, now: real)
    | Advance(p: nat, now: real)
    | ExpireHits(now: real)
    | ExpireLast(now: real)

  function Start(n: nat, clock: real): System {
    System(clock, [], clock, 0, None, clock, 0, seq(n, _ => Process(Idle, 0)), [], [], [], [])
  }

  function Goto(s: System, p: nat, place: Place): System
    requires p < |s.procs|
  {
    s.(procs := s.procs[p := s.procs[p].(place := place)])
  }

  /** `allowed` returns True: `pop` counts towards the elastic kick-in. */
  function Allow(c: Config, s: System, p: nat, hit: nat): System
    requires p < |s.procs|
  {
    var kickIn := s.procs[p].kickIn;
    s.(procs := s.procs[p := Process(Idle, if kickIn < c.limit then kickIn + 1 else kickIn)],
       grants := s.grants + [Grant(p, hit)])
  }

  function DropOldHits(s: System, bound: real): System {
    var kept := RemoveUpTo(s.hits, bound);
    if kept == s.hits then s else s.(hits := kept, hitsVer := s.hitsVer + 1)
  }

  /** `ZADD` and `EXPIRE` in one transaction. */
  function AddHit(c: Config, s: System, p: nat, stamp: real): System {
    s.(hits := Insert(s.hits, stamp), hitsDeadline := s.clock + c.Ttl(), hitsVer := s.hitsVer + 1,
       history := s.history + [stamp], owners := s.owners + [p])
  }

  /** `SET moderate_key curr_time EX ttl`. */
  function SetLast(c: Config, s: System, p: nat, turn: Turn): System {
    s.(last := Some(turn.curr), lastDeadline := s.clock + c.Ttl(), lastVer := s.lastVer + 1,
       turns := s.turns + [Taken(p, turn.curr, turn.ticket)])
  }

  /** Either commit gives its key a life of twice the window, in whole seconds. */
  lemma CommitsRenewLife(c: Config, s: System, p: nat, stamp: real, turn: Turn)
    ensures AddHit(c, s, p, stamp).hitsDeadline == s.clock + (2.0 * c.window).Floor as real
    ensures SetLast(c, s, p, turn).lastDeadline == s.clock + (2.0 * c.window).Floor as real
  {
  }

  /** An absent moderate key reads as 0.0. */
  function LastOr(last: Option<real>): real {
    match last
    case None => 0.0
    case Some(v) => v
  }

  /**
   * The next command of process p; `s.clock` is the time it happens.  Redis refuses
   * a SET with a life of zero, and the call ends with that error.
   */
  function Issue(c: Config, s: System, p: nat): System
    requires c.limit != 0 && p < |s.procs|
  {
    match s.procs[p].place
    case Idle => s
    case Prune(expires) =>
      Goto(DropOldHits(s, expires), p, if c.Moderated() then WatchLast else WatchHits(None))
    case WatchLast => Goto(s, p, ReadClock(s.lastVer))
    case ReadClock(v) => Goto(s, p, TestGap(v, s.clock))
    case TestGap(v, curr) =>
      Goto(s, p, if curr - LastOr(s.last) < c.Gap()
                 then TestElastic(v, curr)
                 else WatchHits(Some(Turn(v, curr, OnTime))))
    case TestElastic(v, curr) =>
      if c.elastic && s.procs[p].kickIn == c.limit && c.limit - |s.hits| > c.elasticBuffer then
        Goto(s, p, WatchHits(Some(Turn(v, curr,
          CatchUp(s.clock, |s.history|, |s.grants|, |s.hits|)))))
      else
        Goto(s, p, Idle)
    case WatchHits(turn) => Goto(s, p, CountHits(turn, s.hitsVer))
    case CountHits(turn, v) => Goto(s, p, if |s.hits| < c.limit then StampHit(turn, v) else Idle)
    case StampHit(turn, v) => Goto(s, p, CommitHit(turn, v, s.clock))
    case CommitHit(turn, v, stamp) =>
      if s.hitsVer != v then Goto(s, p, Idle)
      else
        var s' := AddHit(c, s, p, stamp);
        (match turn
         case None => Allow(c, s', p, |s.history|)
         case Some(t) => Goto(s', p, CommitTurn(t, |s.history|)))
    case CommitTurn(t, hit) =>
      if s.lastVer != t.ver || c.Ttl() <= 0.0 then Goto(s, p, Idle)
      else Allow(c, SetLast(c, s, p, t), p, hit)
  }

  /** One action; an action that is not enabled changes nothing. */
  function Step(c: Config, s: System, a: Action): System
    requires c.limit != 0
  {
    if a.now <= s.clock then s
    else
      match a
      case Begin(p, now) =>
        if p < |s.procs| && s.procs[p].place == Idle
        then Goto(s.(clock := now), p, Prune(now - c.window)) else s
      case Advance(p, now) =>
        if p < |s.procs| then Issue(c, s.(clock := now), p) else s
      case ExpireHits(now) =>
        if s.hits != [] && s.hitsDeadline <= now
        then s.(clock := now, hits := [], hitsVer := s.hitsVer + 1) else s
      case ExpireLast(now) =>
        if s.last.Some? && s.lastDeadline <= now
        then s.(clock := now, last := None, lastVer := s.lastVer + 1) else s
  }

  /** The system after a whole schedule of actions. */
  function Run(c: Config, s: System, schedule: seq<Action>): System
    requires c.limit != 0
    decreases |schedule|
  {
    if schedule == [] then s
    else Step(c, Run(c, s, schedule[..|schedule| - 1]), schedule[|schedule| - 1])
  }

  function GrantsOf(grants: seq<Grant>, p: nat): nat {
    if grants == [] then 0
    else GrantsOf(grants[..|grants| - 1], p) + if grants[|grants| - 1].who == p then 1 else 0
  }
}
