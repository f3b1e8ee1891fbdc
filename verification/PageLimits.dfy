/**
 * The two page-limit filters.  Many schedulers share one counter per domain and
 * crawl for each filter; checking a counter and incrementing it are separate
 * Redis commands.
 */
module PageLimits {
  import opened Options

  /** The commands a filter issues, in order. */
  datatype Command = Exists | SetZero | Get | Incr

  /** A request that a filter let through: its limit, and what `INCR` returned for it. */
  datatype Pass = Pass(limit: nat, result: nat)

  /** A counter key, absent until somebody sets it, and everything it let through. */
  datatype Counter = Counter(value: Option<nat>, passed: seq<Pass>)

  datatype Verdict = GoOn(command: Command) | LimitReached | LetThrough

  /** One command of `request_page_limit_reached`. */
  function Issue(c: Counter, limit: nat, command: Command): (Counter, Verdict) {
    match command
    case Exists => (c, GoOn(if c.value.None? then SetZero else Get))
    case SetZero => (c.(value := Some(0)), GoOn(Get))
    case Get => (c, if c.value.Some? && c.value.value >= limit then LimitReached else GoOn(Incr))
    case Incr =>
      var result := (if c.value.Some? then c.value.value else 0) + 1;
      if result >= limit then (c.(value := Some(result)), LimitReached)
      else (Counter(Some(result), c.passed + [Pass(limit, result)]), LetThrough)
  }

  datatype Filter = DomainFilter | GlobalFilter

  /** Where a scheduler is with a request whose domain limit is `limit`. */
  datatype Process = Free | Filtering(limit: nat, filter: Filter, command: Command)

  /** `globalLimit` is 0 when the global filter is off. */
  datatype System = System(
    globalLimit: nat, domain: Counter, global: Counter, procs: seq<Process>, enqueued: nat)

  /** A request arrives at scheduler p, or scheduler p issues its next command. */
  datatype Action = Arrive(p: nat, limit: nat) | Advance(p: nat)

  function Start(globalLimit: nat, domain: Option<nat>, global: Option<nat>, n: nat): System {
    System(globalLimit, Counter(domain, []), Counter(global, []), seq(n, _ => Free), 0)
  }

  function Place(s: System, p: nat, q: Process): System
    requires p < |s.procs|
  {
    s.(procs := s.procs[p := q])
  }

  function Enqueue(s: System, p: nat): System
    requires p < |s.procs|
  {
    Place(s.(enqueued := s.enqueued + 1), p, Free)
  }

  /** Past the domain filter: on to the global filter, or into the queue. */
  function PastDomain(s: System, p: nat, limit: nat): System
    requires p < |s.procs|
  {
    if s.globalLimit != 0 then Place(s, p, Filtering(limit, GlobalFilter, Exists)) else Enqueue(s, p)
  }

  /** The next command of a scheduler inside a filter. */
  function NextCommand(s: System, p: nat): System
    requires p < |s.procs| && s.procs[p].Filtering?
  {
    var Filtering(limit, filter, command) := s.procs[p];
    match filter
    case DomainFilter =>
      var (c, verdict) := Issue(s.domain, limit, command);
      var s' := s.(domain := c);
      (match verdict
       case GoOn(next) => Place(s', p, Filtering(limit, DomainFilter, next))
       case LimitReached => Place(s', p, Free)
       case LetThrough => PastDomain(s', p, limit))
    case GlobalFilter =>
      var (c, verdict) := Issue(s.global, s.globalLimit, command);
      var s' := s.(global := c);
      (match verdict
       case GoOn(next) => Place(s', p, Filtering(limit, GlobalFilter, next))
       case LimitReached => Place(s', p, Free)
       case LetThrough => Enqueue(s', p))
  }

  /** One action; an action that is not enabled changes nothing. */
  function Step(s: System, a: Action): System {
    if a.p >= |s.procs| then s
    else
      match a
      case Arrive(p, limit) =>
        if !s.procs[p].Free? then s
        else if limit != 0 then Place(s, p, Filtering(limit, DomainFilter, Exists))
        else PastDomain(s, p, limit)
      case Advance(p) => if s.procs[p].Filtering? then NextCommand(s, p) else s
  }

  function Run(s: System, schedule: seq<Action>): System
    decreases |schedule|
  {
    if schedule == [] then s
    else Step(Run(s, schedule[..|schedule| - 1]), schedule[|schedule| - 1])
  }

  // ----------------------------------------------------------- one counter

  /** Results are handed out once each, from 1 up to the counter, and only below the request's limit. */
  ghost predicate PassesOk(c: Counter) {
    && (forall i, j :: 0 <= i < j < |c.passed| ==> c.passed[i].result < c.passed[j].result)
    && (forall i :: 0 <= i < |c.passed| ==> 0 < c.passed[i].result < c.passed[i].limit)
    && (c.passed != [] ==> c.value.Some? && c.passed[|c.passed| - 1].result <= c.value.value)
  }

  /** How many requests with at most this limit were let through. */
  function PassedUpTo(passed: seq<Pass>, limit: nat): nat {
    if passed == [] then 0
    else PassedUpTo(passed[..|passed| - 1], limit) + if passed[|passed| - 1].limit <= limit then 1 else 0
  }

  lemma {:induction false} FewerThanResults(passed: seq<Pass>)
    requires forall i, j :: 0 <= i < j < |passed| ==> passed[i].result < passed[j].result
    requires forall i :: 0 <= i < |passed| ==> 0 < passed[i].result
    ensures passed != [] ==> |passed| <= passed[|passed| - 1].result
    decreases |passed|
  {
    if |passed| > 1 {
      FewerThanResults(passed[..|passed| - 1]);
    }
  }

  lemma {:induction false} PassedBelowLength(passed: seq<Pass>, limit: nat)
    ensures PassedUpTo(passed, limit) <= |passed|
    decreases |passed|
  {
    if passed == [] {
    } else {
      PassedBelowLength(passed[..|passed| - 1], limit);
    }
  }

  /** A filter of limit n lets at most n - 1 requests through: the seed is the n-th page. */
  lemma {:induction false} AtMostLimitMinusOne(c: Counter, limit: nat)
    requires PassesOk(c)
    ensures PassedUpTo(c.passed, limit) <= if limit == 0 then 0 else limit - 1
    decreases |c.passed|
  {
    if c.passed == [] {
    } else {
      var n := |c.passed| - 1;
      if c.passed[n].limit <= limit {
        FewerThanResults(c.passed);
        PassedBelowLength(c.passed, limit);
      } else {
        var c' := Counter(c.value, c.passed[..n]);
        assert n != 0 ==> c'.passed[n - 1].result < c.passed[n].result;
        AtMostLimitMinusOne(c', limit);
      }
    }
  }

  /** On a key that is there, a command keeps the passes in order and never leads to setting it. */
  lemma IssueOnKey(c: Counter, limit: nat, command: Command)
    requires PassesOk(c) && c.value.Some? && !command.SetZero?
    ensures var (c', verdict) := Issue(c, limit, command);
            && PassesOk(c') && c'.value.Some? && verdict != GoOn(SetZero)
            && c'.passed == if verdict.LetThrough? then c.passed + [Pass(limit, c'.value.value)] else c.passed
  {
  }

  /** How many commands may still follow this one. */
  function Rank(command: Command): nat {
    match command
    case Exists => 3
    case SetZero => 2
    case Get => 1
    case Incr => 0
  }

  /** A filter that nobody disturbs, from this command on. */
  function Alone(c: Counter, limit: nat, command: Command): (Counter, Verdict)
    decreases Rank(command)
  {
    var (c', verdict) := Issue(c, limit, command);
    if verdict.GoOn? then Alone(c', limit, verdict.command) else (c', verdict)
  }

  /**
   * Undisturbed, a filter of limit n lets a request through exactly if that makes
   * at most n - 1 counted, and counts every request until n are.
   */
  lemma AloneCounts(c: Counter, limit: nat)
    ensures var n := if c.value.Some? then c.value.value else 0;
            var (c', verdict) := Alone(c, limit, Exists);
            && verdict == (if n + 1 < limit then LetThrough else LimitReached)
            && c'.value == Some(if n < limit then n + 1 else n)
            && c'.passed == if n + 1 < limit then c.passed + [Pass(limit, n + 1)] else c.passed
  {
    var c0 := if c.value.Some? then c else c.(value := Some(0));
    assert Alone(c, limit, Exists) == Alone(c0, limit, Get);
  }

  // ------------------------------------------------------------------ all runs

  /** How many schedulers are at this command of this filter. */
  function At(procs: seq<Process>, filter: Filter, command: Command): nat {
    if procs == [] then 0
    else At(procs[..|procs| - 1], filter, command)
         + match procs[|procs| - 1]
           case Free => 0
           case Filtering(_, f, c) => if f == filter && c == command then 1 else 0
  }

  /** How many schedulers are inside this filter. */
  function Inside(procs: seq<Process>, filter: Filter): nat {
    if procs == [] then 0
    else Inside(procs[..|procs| - 1], filter)
         + match procs[|procs| - 1]
           case Free => 0
           case Filtering(_, f, _) => if f == filter then 1 else 0
  }

  function Is(b: bool): nat { if b then 1 else 0 }

  lemma {:induction false} AtUpdate(procs: seq<Process>, p: nat, q: Process, filter: Filter, command: Command)
    requires p < |procs|
    ensures At(procs[p := q], filter, command) + Is(procs[p].Filtering? && procs[p].filter == filter && procs[p].command == command)
            == At(procs, filter, command) + Is(q.Filtering? && q.filter == filter && q.command == command)
    decreases |procs|
  {
    var n := |procs| - 1;
    if p == n {
      assert procs[p := q][..n] == procs[..n];
    } else {
      assert procs[p := q][..n] == procs[..n][p := q];
      AtUpdate(procs[..n], p, q, filter, command);
    }
  }

  lemma {:induction false} InsideUpdate(procs: seq<Process>, p: nat, q: Process, filter: Filter)
    requires p < |procs|
    ensures Inside(procs[p := q], filter) + Is(procs[p].Filtering? && procs[p].filter == filter)
            == Inside(procs, filter) + Is(q.Filtering? && q.filter == filter)
    decreases |procs|
  {
    var n := |procs| - 1;
    if p == n {
      assert procs[p := q][..n] == procs[..n];
    } else {
      assert procs[p := q][..n] == procs[..n][p := q];
      InsideUpdate(procs[..n], p, q, filter);
    }
  }

  lemma {:induction false} AtMostAll(procs: seq<Process>, filter: Filter, command: Command)
    ensures At(procs, filter, command) <= |procs|
    decreases |procs|
  {
    if procs == [] {
    } else {
      AtMostAll(procs[..|procs| - 1], filter, command);
    }
  }

  /** Both keys are there, so nobody sets them to zero. */
  ghost predicate Initialised(s: System) {
    && s.domain.value.Some? && s.global.value.Some?
    && forall p :: 0 <= p < |s.procs| ==> !(s.procs[p].Filtering? && s.procs[p].command.SetZero?)
  }

  ghost predicate Inv(s: System) {
    Initialised(s) && PassesOk(s.domain) && PassesOk(s.global)
  }

  /** Moving one scheduler to a place that does not set a key keeps the invariant. */
  lemma PlaceKeepsInv(s: System, p: nat, q: Process)
    requires Inv(s) && p < |s.procs| && !(q.Filtering? && q.command.SetZero?)
    ensures Inv(Place(s, p, q)) && Inv(Enqueue(s, p))
  {
  }

  lemma DomainKeepsInv(s: System, p: nat)
    requires Inv(s) && p < |s.procs| && s.procs[p].Filtering? && s.procs[p].filter.DomainFilter?
    ensures Inv(NextCommand(s, p))
  {
    var Filtering(limit, _, command) := s.procs[p];
    IssueOnKey(s.domain, limit, command);
    var (c, verdict) := Issue(s.domain, limit, command);
    PlaceKeepsInv(s.(domain := c), p, match verdict
      case GoOn(next) => Filtering(limit, DomainFilter, next)
      case LimitReached => Free
      case LetThrough => Filtering(limit, GlobalFilter, Exists));
  }

  lemma GlobalKeepsInv(s: System, p: nat)
    requires Inv(s) && p < |s.procs| && s.procs[p].Filtering? && s.procs[p].filter.GlobalFilter?
    ensures Inv(NextCommand(s, p))
  {
    var Filtering(limit, _, command) := s.procs[p];
    IssueOnKey(s.global, s.globalLimit, command);
    var (c, verdict) := Issue(s.global, s.globalLimit, command);
    PlaceKeepsInv(s.(global := c), p, if verdict.GoOn? then Filtering(limit, GlobalFilter, verdict.command) else Free);
  }

  lemma StepInv(s: System, a: Action)
    requires Inv(s)
    ensures Inv(Step(s, a))
  {
    if a.p < |s.procs| {
      match a
      case Arrive(p, limit) =>
        PlaceKeepsInv(s, p, Filtering(limit, if limit != 0 then DomainFilter else GlobalFilter, Exists));
      case Advance(p) =>
        if s.procs[p].Filtering? {
          if s.procs[p].filter.DomainFilter? { DomainKeepsInv(s, p); } else { GlobalKeepsInv(s, p); }
        }
    }
  }

  lemma {:induction false} RunInv(s: System, schedule: seq<Action>)
    requires Inv(s)
    ensures Inv(Run(s, schedule))
    decreases |schedule|
  {
    if schedule == [] {
    } else {
      RunInv(s, schedule[..|schedule| - 1]);
      StepInv(Run(s, schedule[..|schedule| - 1]), schedule[|schedule| - 1]);
    }
  }

  /**
   * Main result: however the schedulers interleave, once the keys are there each
   * filter lets at most limit - 1 requests of that limit or less through.
   */
  lemma PageLimitHolds(globalLimit: nat, d: nat, g: nat, n: nat, schedule: seq<Action>, limit: nat)
    requires 0 < limit
    ensures var s := Run(Start(globalLimit, Some(d), Some(g), n), schedule);
            PassedUpTo(s.domain.passed, limit) < limit && PassedUpTo(s.global.passed, limit) < limit
  {
    RunInv(Start(globalLimit, Some(d), Some(g), n), schedule);
    var s := Run(Start(globalLimit, Some(d), Some(g), n), schedule);
    AtMostLimitMinusOne(s.domain, limit);
    AtMostLimitMinusOne(s.global, limit);
  }

  /** Every arriving request carries a domain limit between 1 and n. */
  ghost predicate LimitsWithin(schedule: seq<Action>, limit: nat) {
    forall i :: 0 <= i < |schedule| && schedule[i].Arrive? ==> 0 < schedule[i].limit <= limit
  }

  ghost predicate ProcsWithin(procs: seq<Process>, limit: nat) {
    forall p :: 0 <= p < |procs| && procs[p].Filtering? ==> 0 < procs[p].limit <= limit
  }

  /** No arriving request carries a domain limit above n. */
  ghost predicate LimitsUpTo(schedule: seq<Action>, limit: nat) {
    forall i :: 0 <= i < |schedule| && schedule[i].Arrive? ==> schedule[i].limit <= limit
  }

  /** The limits that requests meet in this filter are at most this. */
  ghost predicate FilterUpTo(s: System, filter: Filter, limit: nat) {
    match filter
    case DomainFilter => forall p :: 0 <= p < |s.procs| && s.procs[p].Filtering? ==> s.procs[p].limit <= limit
    case GlobalFilter => s.globalLimit <= limit
  }

  function CounterOf(s: System, filter: Filter): Counter {
    match filter
    case DomainFilter => s.domain
    case GlobalFilter => s.global
  }

  /** The counter plus the increments under way never passes the bound. */
  ghost predicate OvershootInv(s: System, filter: Filter, limit: nat, bound: int) {
    && Inv(s) && FilterUpTo(s, filter, limit)
    && limit - 1 + |s.procs| <= bound
    && CounterOf(s, filter).value.value + At(s.procs, filter, Incr) <= bound
  }

  /** Only the acting scheduler moves, and it keeps its request's limit. */
  lemma StepMovesOne(s: System, a: Action, filter: Filter, limit: nat)
    requires a.p < |s.procs| && FilterUpTo(s, filter, limit)
    requires filter.DomainFilter? ==> LimitsUpTo([a], limit)
    ensures var s' := Step(s, a);
            |s'.procs| == |s.procs| && s'.procs == s.procs[a.p := s'.procs[a.p]] && FilterUpTo(s', filter, limit)
  {
    assert [a][0] == a;
  }

  function Incrementing(q: Process, filter: Filter): int {
    Is(q.Filtering? && q.filter == filter && q.command == Incr)
  }

  /** What one action adds to a counter it takes from the increments under way, unless it saw room below the limit. */
  lemma StepMovesCount(s: System, a: Action, filter: Filter, limit: nat)
    requires Inv(s) && FilterUpTo(s, filter, limit) && a.p < |s.procs|
    ensures var s' := Step(s, a);
            var more := Incrementing(s'.procs[a.p], filter) - Incrementing(s.procs[a.p], filter);
            && CounterOf(s', filter).value.Some?
            && (CounterOf(s', filter).value.value + more == CounterOf(s, filter).value.value
                || (CounterOf(s', filter).value.value == CounterOf(s, filter).value.value < limit))
  {
  }

  lemma OvershootStep(s: System, a: Action, filter: Filter, limit: nat, bound: int)
    requires OvershootInv(s, filter, limit, bound)
    requires filter.DomainFilter? ==> LimitsUpTo([a], limit)
    ensures OvershootInv(Step(s, a), filter, limit, bound) && |Step(s, a).procs| == |s.procs|
  {
    StepInv(s, a);
    if a.p < |s.procs| {
      StepMovesOne(s, a, filter, limit);
      StepMovesCount(s, a, filter, limit);
      var s' := Step(s, a);
      AtUpdate(s.procs, a.p, s'.procs[a.p], filter, Incr);
      AtMostAll(s'.procs, filter, Incr);
    }
  }

  lemma {:induction false} OvershootRun(s: System, schedule: seq<Action>, filter: Filter, limit: nat, bound: int)
    requires OvershootInv(s, filter, limit, bound)
    requires filter.DomainFilter? ==> LimitsUpTo(schedule, limit)
    ensures OvershootInv(Run(s, schedule), filter, limit, bound) && |Run(s, schedule).procs| == |s.procs|
    decreases |schedule|
  {
    if schedule == [] {
    } else {
      var before := schedule[..|schedule| - 1];
      OvershootRun(s, before, filter, limit, bound);
      OvershootStep(Run(s, before), schedule[|schedule| - 1], filter, limit, bound);
    }
  }

  function Max(a: int, b: int): int { if a < b then b else a }

  /**
   * Main result: P schedulers can push either counter past its limit n, but never
   * to n + P, unless it started there.
   */
  lemma CounterOvershootBounded(globalLimit: nat, d: nat, g: nat, n: nat, schedule: seq<Action>, limit: nat)
    requires LimitsUpTo(schedule, limit)
    ensures var s := Run(Start(globalLimit, Some(d), Some(g), n), schedule);
            && s.domain.value.Some? && s.domain.value.value <= Max(d, limit - 1 + n)
            && s.global.value.Some? && s.global.value.value <= Max(g, globalLimit - 1 + n)
  {
    var s := Start(globalLimit, Some(d), Some(g), n);
    FreeAtNothing(s.procs, DomainFilter, Incr);
    FreeAtNothing(s.procs, GlobalFilter, Incr);
    OvershootRun(s, schedule, DomainFilter, limit, Max(d, limit - 1 + n));
    OvershootRun(s, schedule, GlobalFilter, globalLimit, Max(g, globalLimit - 1 + n));
  }

  lemma {:induction false} FreeAtNothing(procs: seq<Process>, filter: Filter, command: Command)
    requires forall p :: 0 <= p < |procs| ==> procs[p].Free?
    ensures At(procs, filter, command) == 0 && Inside(procs, filter) == 0
    decreases |procs|
  {
    if procs == [] {
    } else {
      FreeAtNothing(procs[..|procs| - 1], filter, command);
    }
  }

  ghost predicate PassedWithin(passed: seq<Pass>, limit: nat) {
    forall i :: 0 <= i < |passed| ==> passed[i].limit <= limit
  }

  /** With both filters on, what is enqueued has passed both. */
  ghost predicate FlowInv(s: System, limit: nat) {
    && s.globalLimit != 0 && ProcsWithin(s.procs, limit)
    && s.enqueued + Inside(s.procs, GlobalFilter) <= |s.domain.passed|
    && s.enqueued == |s.global.passed|
    && PassedWithin(s.domain.passed, limit) && PassedWithin(s.global.passed, s.globalLimit)
  }

  lemma DomainCommandFlows(s: System, p: nat, limit: nat)
    requires FlowInv(s, limit) && p < |s.procs| && s.procs[p].Filtering? && s.procs[p].filter.DomainFilter?
    ensures FlowInv(NextCommand(s, p), limit)
  {
    var s' := NextCommand(s, p);
    assert s'.procs == s.procs[p := s'.procs[p]];
    InsideUpdate(s.procs, p, s'.procs[p], GlobalFilter);
  }

  lemma GlobalCommandFlows(s: System, p: nat, limit: nat)
    requires FlowInv(s, limit) && p < |s.procs| && s.procs[p].Filtering? && s.procs[p].filter.GlobalFilter?
    ensures FlowInv(NextCommand(s, p), limit)
  {
    var s' := NextCommand(s, p);
    assert s'.procs == s.procs[p := s'.procs[p]];
    InsideUpdate(s.procs, p, s'.procs[p], GlobalFilter);
  }

  lemma ArrivalFlows(s: System, p: nat, limit: nat, n: nat)
    requires FlowInv(s, limit) && p < |s.procs| && s.procs[p].Free? && 0 < n <= limit
    ensures FlowInv(Place(s, p, Filtering(n, DomainFilter, Exists)), limit)
  {
    InsideUpdate(s.procs, p, Filtering(n, DomainFilter, Exists), GlobalFilter);
  }

  lemma FlowStep(s: System, a: Action, limit: nat)
    requires FlowInv(s, limit) && LimitsWithin([a], limit)
    ensures FlowInv(Step(s, a), limit) && Step(s, a).globalLimit == s.globalLimit
  {
    assert [a][0] == a;
    if a.p < |s.procs| {
      if a.Arrive? && s.procs[a.p].Free? {
        ArrivalFlows(s, a.p, limit, a.limit);
      } else if a.Advance? && s.procs[a.p].Filtering? {
        if s.procs[a.p].filter.DomainFilter? {
          DomainCommandFlows(s, a.p, limit);
        } else {
          GlobalCommandFlows(s, a.p, limit);
        }
      }
    }
  }

  lemma {:induction false} AllPassedCount(passed: seq<Pass>, limit: nat)
    requires forall i :: 0 <= i < |passed| ==> passed[i].limit <= limit
    ensures PassedUpTo(passed, limit) == |passed|
    decreases |passed|
  {
    if passed == [] {
    } else {
      AllPassedCount(passed[..|passed| - 1], limit);
    }
  }

  lemma {:induction false} FlowRun(globalLimit: nat, d: nat, g: nat, n: nat, schedule: seq<Action>, limit: nat)
    requires globalLimit != 0 && LimitsWithin(schedule, limit)
    ensures var s := Run(Start(globalLimit, Some(d), Some(g), n), schedule);
            FlowInv(s, limit) && s.globalLimit == globalLimit
    decreases |schedule|
  {
    if schedule == [] {
      FreeAtNothing(seq(n, _ => Free), GlobalFilter, Get);
    } else {
      var before := schedule[..|schedule| - 1];
      FlowRun(globalLimit, d, g, n, before, limit);
      FlowStep(Run(Start(globalLimit, Some(d), Some(g), n), before), schedule[|schedule| - 1], limit);
    }
  }

  /** Main result: with both filters on, fewer than both limits are enqueued. */
  lemma BothLimitsHold(globalLimit: nat, d: nat, g: nat, n: nat, schedule: seq<Action>, limit: nat)
    requires globalLimit != 0 && 0 < limit && LimitsWithin(schedule, limit)
    ensures var s := Run(Start(globalLimit, Some(d), Some(g), n), schedule);
            s.enqueued == |s.global.passed| && s.enqueued < limit && s.enqueued < globalLimit
  {
    var s := Run(Start(globalLimit, Some(d), Some(g), n), schedule);
    FlowRun(globalLimit, d, g, n, schedule, limit);
    AllPassedCount(s.domain.passed, limit);
    AllPassedCount(s.global.passed, globalLimit);
    PageLimitHolds(globalLimit, d, g, n, schedule, limit);
    PageLimitHolds(globalLimit, d, g, n, schedule, globalLimit);
  }

  // -------------------------------------------------- a key that is not there

  /** One scheduler takes a request of this limit through the domain filter, from the start. */
  function Attempt(p: nat, limit: nat): seq<Action> {
    [Arrive(p, limit), Advance(p)] + [Advance(p), Advance(p)]
  }

  lemma {:induction false} RunConcat(s: System, a: seq<Action>, b: seq<Action>)
    ensures Run(s, a + b) == Run(Run(s, a), b)
    decreases |b|
  {
    if b == [] {
      assert a + b == a;
    } else {
      assert (a + b)[..|a + b| - 1] == a + b[..|b| - 1];
      RunConcat(s, a, b[..|b| - 1]);
    }
  }

  lemma RunOne(s: System, a: Action)
    ensures Run(s, [a]) == Step(s, a)
  {
    assert [a][..0] == [];
  }

  /** Four actions, one after the other. */
  lemma RunFour(s: System, actions: seq<Action>, s1: System, s2: System, s3: System, s4: System)
    requires |actions| == 4
    requires s1 == Step(s, actions[0]) && s2 == Step(s1, actions[1])
    requires s3 == Step(s2, actions[2]) && s4 == Step(s3, actions[3])
    ensures Run(s, actions) == s4
  {
    var a, b, c, d := [actions[0]], [actions[1]], [actions[2]], [actions[3]];
    assert actions == ((a + b) + c) + d;
    RunConcat(s, (a + b) + c, d);
    RunConcat(s, a + b, c);
    RunConcat(s, a, b);
    RunOne(s, actions[0]);
    RunOne(s1, actions[1]);
    RunOne(s2, actions[2]);
    RunOne(s3, actions[3]);
  }

  /** Scheduler p has this command of the domain filter to issue. */
  predicate Ready(s: System, p: nat, limit: nat, command: Command) {
    p < |s.procs| && s.procs[p] == Filtering(limit, DomainFilter, command)
  }

  /** Where the domain filter takes a scheduler when the global filter is off. */
  function Advanced(s: System, p: nat, limit: nat, command: Command): System
    requires p < |s.procs|
  {
    var v := if s.domain.value.Some? then s.domain.value.value else 0;
    match command
    case Exists => Place(s, p, Filtering(limit, DomainFilter, if s.domain.value.None? then SetZero else Get))
    case SetZero => Place(s.(domain := s.domain.(value := Some(0))), p, Filtering(limit, DomainFilter, Get))
    case Get => Place(s, p, if s.domain.value.Some? && limit <= v then Free else Filtering(limit, DomainFilter, Incr))
    case Incr =>
      if limit <= v + 1 then Place(s.(domain := s.domain.(value := Some(v + 1))), p, Free)
      else Enqueue(s.(domain := Counter(Some(v + 1), s.domain.passed + [Pass(limit, v + 1)])), p)
  }

  lemma AdvanceDomain(s: System, p: nat, limit: nat, command: Command)
    requires s.globalLimit == 0 && Ready(s, p, limit, command)
    ensures Step(s, Advance(p)) == Advanced(s, p, limit, command)
  {
  }

  lemma PlaceTwice(s: System, p: nat, q: Process, r: Process)
    requires p < |s.procs|
    ensures Place(Place(s, p, q), p, r) == Place(s, p, r)
  {
    assert s.procs[p := q][p := r] == s.procs[p := r];
  }

  lemma IncrPasses(s: System, p: nat, limit: nat)
    requires s.globalLimit == 0 && Ready(s, p, limit, Incr)
    requires s.domain.value.Some? && s.domain.value.value + 1 < limit
    ensures var v := s.domain.value.value + 1;
            Step(s, Advance(p)) ==
            s.(procs := s.procs[p := Free], enqueued := s.enqueued + 1,
               domain := Counter(Some(v), s.domain.passed + [Pass(limit, v)]))
  {
    AdvanceDomain(s, p, limit, Incr);
  }

  lemma AttemptArrives(s: System, p: nat, limit: nat)
    requires s.globalLimit == 0 && p < |s.procs| && s.procs[p].Free? && s.domain.value.Some? && 0 < limit
    ensures Run(s, [Arrive(p, limit), Advance(p)]) == Place(s, p, Filtering(limit, DomainFilter, Get))
  {
    var s1 := Place(s, p, Filtering(limit, DomainFilter, Exists));
    AdvanceDomain(s1, p, limit, Exists);
    PlaceTwice(s, p, Filtering(limit, DomainFilter, Exists), Filtering(limit, DomainFilter, Get));
    assert [Arrive(p, limit), Advance(p)] == [Arrive(p, limit)] + [Advance(p)];
    RunConcat(s, [Arrive(p, limit)], [Advance(p)]);
    RunOne(s, Arrive(p, limit));
    RunOne(s1, Advance(p));
  }

  lemma AttemptCounts(s: System, p: nat, limit: nat)
    requires s.globalLimit == 0 && Ready(s, p, limit, Get)
    requires s.domain.value.Some? && s.domain.value.value + 1 < limit
    ensures var v := s.domain.value.value + 1;
            Run(s, [Advance(p), Advance(p)]) ==
            s.(procs := s.procs[p := Free], enqueued := s.enqueued + 1,
               domain := Counter(Some(v), s.domain.passed + [Pass(limit, v)]))
  {
    var s1 := Place(s, p, Filtering(limit, DomainFilter, Incr));
    AdvanceDomain(s, p, limit, Get);
    IncrPasses(s1, p, limit);
    assert s.procs[p := Filtering(limit, DomainFilter, Incr)][p := Free] == s.procs[p := Free];
    assert [Advance(p), Advance(p)] == [Advance(p)] + [Advance(p)];
    RunConcat(s, [Advance(p)], [Advance(p)]);
    RunOne(s, Advance(p));
    RunOne(s1, Advance(p));
  }

  /** Below the limit, an attempt that nobody disturbs passes. */
  lemma AttemptPasses(s: System, p: nat, limit: nat) returns (s': System)
    requires s.globalLimit == 0 && p < |s.procs| && s.procs[p].Free?
    requires s.domain.value.Some? && s.domain.value.value + 1 < limit
    ensures s' == Run(s, Attempt(p, limit))
    ensures s'.procs == s.procs && s'.globalLimit == 0
    ensures s'.domain == Counter(Some(s.domain.value.value + 1), s.domain.passed + [Pass(limit, s.domain.value.value + 1)])
  {
    var s1 := Place(s, p, Filtering(limit, DomainFilter, Get));
    AttemptArrives(s, p, limit);
    AttemptCounts(s1, p, limit);
    RunConcat(s, [Arrive(p, limit), Advance(p)], [Advance(p), Advance(p)]);
    s' := Run(s1, [Advance(p), Advance(p)]);
    assert s.procs[p := Filtering(limit, DomainFilter, Get)][p := Free] == s.procs;
  }

  lemma AttemptsFollow(s: System, before: seq<Action>, s1: System, s2: System, limit: nat)
    requires s1 == Run(s, before) && s2 == Run(s1, Attempt(1, limit))
    ensures s2 == Run(s, before + Attempt(1, limit))
  {
    RunConcat(s, before, Attempt(1, limit));
  }

  lemma AttemptLimit(before: seq<Action>, limit: nat)
    requires LimitsAre(before, limit)
    ensures LimitsAre(before + Attempt(1, limit), limit)
  {
  }

  lemma {:induction false} AttemptsUpTo(s: System, limit: nat, k: nat) returns (schedule: seq<Action>, s': System)
    requires s.globalLimit == 0 && 1 < |s.procs| && s.procs[1].Free?
    requires s.domain.value.Some? && s.domain.value.value + k < limit
    ensures s' == Run(s, schedule) && LimitsAre(schedule, limit)
    ensures s'.procs == s.procs && s'.globalLimit == 0
    ensures s'.domain.value == Some(s.domain.value.value + k)
    ensures |s'.domain.passed| == |s.domain.passed| + k
  {
    if k == 0 {
      schedule, s' := [], s;
    } else {
      var before, s1 := AttemptsUpTo(s, limit, k - 1);
      s' := AttemptPasses(s1, 1, limit);
      AttemptsFollow(s, before, s1, s', limit);
      AttemptLimit(before, limit);
      schedule := before + Attempt(1, limit);
    }
  }

  ghost predicate LimitsAre(schedule: seq<Action>, limit: nat) {
    forall i :: 0 <= i < |schedule| && schedule[i].Arrive? ==> schedule[i].limit == limit
  }

  /**
   * The race on a missing key: scheduler 0 sees no key, scheduler 1 sets it and
   * uses up the limit, then scheduler 0 sets it to zero again and passes as well.
   */
  lemma RaceExceedsLimit(n: nat, limit: nat) returns (schedule: seq<Action>)
    requires 1 < n && 1 < limit
    ensures LimitsAre(schedule, limit) && limit <= |Run(Start(0, None, None, n), schedule).domain.passed|
  {
    var s0 := Start(0, None, None, n);
    var open := [Arrive(0, limit), Advance(0), Arrive(1, limit), Advance(1)];
    var s1 := BothSeeNoKey(n, limit);
    var first := [Advance(1), Advance(1), Advance(1), Advance(1)];
    var s2 := SetAndPass(s1, 1, limit);
    var more, s3 := AttemptsUpTo(s2, limit, limit - 2);
    var last := [Advance(0), Advance(0), Advance(0), Advance(0)];
    var s4 := SetAndPass(s3, 0, limit);
    schedule := open + first + more + last;
    assert Run(s0, schedule) == s4 by {
      RunConcat(s0, open, first);
      RunConcat(s0, open + first, more);
      RunConcat(s0, open + first + more, last);
    }
  }

  lemma BothSeeNoKey(n: nat, limit: nat) returns (s: System)
    requires 1 < n && 1 < limit
    ensures s == Run(Start(0, None, None, n), [Arrive(0, limit), Advance(0), Arrive(1, limit), Advance(1)])
    ensures Ready(s, 0, limit, SetZero) && Ready(s, 1, limit, SetZero)
    ensures s.domain == Counter(None, []) && s.globalLimit == 0
  {
    var s0 := Start(0, None, None, n);
    var s1 := Place(s0, 0, Filtering(limit, DomainFilter, Exists));
    assert s1 == Step(s0, Arrive(0, limit));
    AdvanceDomain(s1, 0, limit, Exists);
    var s2 := Advanced(s1, 0, limit, Exists);
    var s3 := Place(s2, 1, Filtering(limit, DomainFilter, Exists));
    assert s3 == Step(s2, Arrive(1, limit));
    AdvanceDomain(s3, 1, limit, Exists);
    s := Advanced(s3, 1, limit, Exists);
    RunFour(s0, [Arrive(0, limit), Advance(0), Arrive(1, limit), Advance(1)], s1, s2, s3, s);
  }

  /** Scheduler p sets the key to zero and passes. */
  lemma SetAndPass(s: System, p: nat, limit: nat) returns (s': System)
    requires s.globalLimit == 0 && Ready(s, p, limit, SetZero) && 1 < limit
    ensures s' == Run(s, [Advance(p), Advance(p), Advance(p), Advance(p)])
    ensures s'.procs == s.procs[p := Free] && s'.globalLimit == 0
    ensures s'.domain == Counter(Some(1), s.domain.passed + [Pass(limit, 1)])
  {
    AdvanceDomain(s, p, limit, SetZero);
    var s1 := Advanced(s, p, limit, SetZero);
    AdvanceDomain(s1, p, limit, Get);
    var s2 := Advanced(s1, p, limit, Get);
    AdvanceDomain(s2, p, limit, Incr);
    var s3 := Advanced(s2, p, limit, Incr);
    RunFour(s, [Advance(p), Advance(p), Advance(p), Advance(p)], s1, s2, s3, s3);
    s' := s3;
  }

  /** With one scheduler the key is only set when it is missing. */
  ghost predicate AloneInv(s: System) {
    && |s.procs| <= 1 && s.globalLimit == 0 && PassesOk(s.domain)
    && forall p :: 0 <= p < |s.procs| && s.procs[p].Filtering? ==>
         && s.procs[p].filter.DomainFilter?
         && (s.procs[p].command.SetZero? ==> s.domain.value.None?)
  }

  lemma IssueAlone(c: Counter, limit: nat, command: Command)
    requires PassesOk(c) && (command.SetZero? ==> c.value.None?)
    ensures var (c', verdict) := Issue(c, limit, command);
            PassesOk(c') && (verdict == GoOn(SetZero) ==> c'.value.None?)
  {
  }

  lemma AloneStep(s: System, a: Action)
    requires AloneInv(s)
    ensures AloneInv(Step(s, a)) || (a.Arrive? && a.limit == 0)
  {
    if a.p < |s.procs| && a.Advance? && s.procs[a.p].Filtering? {
      var Filtering(limit, _, command) := s.procs[a.p];
      AdvanceDomain(s, a.p, limit, command);
      IssueAlone(s.domain, limit, command);
      assert Step(s, a).procs == s.procs[a.p := Step(s, a).procs[a.p]];
    }
  }

  lemma {:induction false} AloneRun(n: nat, schedule: seq<Action>)
    requires n <= 1 && forall i :: 0 <= i < |schedule| && schedule[i].Arrive? ==> 0 < schedule[i].limit
    ensures AloneInv(Run(Start(0, None, None, n), schedule))
    decreases |schedule|
  {
    if schedule == [] {
    } else {
      AloneRun(n, schedule[..|schedule| - 1]);
      AloneStep(Run(Start(0, None, None, n), schedule[..|schedule| - 1]), schedule[|schedule| - 1]);
    }
  }

  /** A limit of one lets nothing through, whatever happens to the key. */
  lemma {:induction false} LimitOneStops(n: nat, schedule: seq<Action>)
    requires LimitsAre(schedule, 1)
    ensures var s := Run(Start(0, None, None, n), schedule);
            && s.domain.passed == [] && s.globalLimit == 0
            && forall p :: 0 <= p < |s.procs| && s.procs[p].Filtering? ==> s.procs[p].limit == 1 && s.procs[p].filter.DomainFilter?
    decreases |schedule|
  {
    if schedule == [] {
    } else {
      LimitOneStops(n, schedule[..|schedule| - 1]);
    }
  }

  /** The domain filter's bound, in every run of n schedulers that starts without the key. */
  ghost predicate AlwaysWithinLimit(n: nat, limit: nat) {
    forall schedule :: LimitsAre(schedule, limit) ==>
      |Run(Start(0, None, None, n), schedule).domain.passed| < limit
  }

  /**
   * Main result: starting without the counter key, the limit holds in every run
   * exactly when there is one scheduler, or the limit lets nothing through anyway.
   */
  lemma MissingKeyNeedsOneScheduler(n: nat, limit: nat)
    requires 0 < limit
    ensures AlwaysWithinLimit(n, limit) <==> n <= 1 || limit == 1
  {
    if n <= 1 || limit == 1 {
      forall schedule | LimitsAre(schedule, limit)
        ensures |Run(Start(0, None, None, n), schedule).domain.passed| < limit
      {
        var s := Run(Start(0, None, None, n), schedule);
        if limit == 1 {
          LimitOneStops(n, schedule);
        } else {
          AloneRun(n, schedule);
          PassedLimits(n, schedule, limit);
          AllPassedCount(s.domain.passed, limit);
          AtMostLimitMinusOne(s.domain, limit);
        }
      }
    } else {
      var schedule := RaceExceedsLimit(n, limit);
      assert !AlwaysWithinLimit(n, limit);
    }
  }

  lemma {:induction false} PassedLimits(n: nat, schedule: seq<Action>, limit: nat)
    requires LimitsAre(schedule, limit)
    ensures var s := Run(Start(0, None, None, n), schedule);
            && s.globalLimit == 0 && PassedWithin(s.domain.passed, limit)
            && forall p :: 0 <= p < |s.procs| && s.procs[p].Filtering? ==> s.procs[p].limit == limit
    decreases |schedule|
  {
    if schedule == [] {
    } else {
      PassedLimits(n, schedule[..|schedule| - 1], limit);
    }
  }

  // ------------------------------------------------ the same for the global filter

  /** The system with the roles of the filters exchanged: requests of this domain limit meet it in the global filter. */
  function Mirrored(s: System, limit: nat): System {
    System(limit, s.global, s.domain,
           seq(|s.procs|, i requires 0 <= i < |s.procs| => MirroredProcess(s.procs[i])), s.enqueued)
  }

  function MirroredProcess(q: Process): Process {
    match q
    case Free => Free
    case Filtering(_, _, command) => Filtering(0, GlobalFilter, command)
  }

  /** The schedule with this domain limit on every arriving request. */
  function WithLimit(schedule: seq<Action>, limit: nat): seq<Action> {
    seq(|schedule|, i requires 0 <= i < |schedule| =>
      match schedule[i] case Arrive(p, _) => Arrive(p, limit) case Advance(p) => Advance(p))
  }

  /** Only the domain filter is on, and all requests in it have this limit. */
  ghost predicate DomainOnly(s: System, limit: nat) {
    && s.globalLimit == 0 && limit != 0
    && forall p :: 0 <= p < |s.procs| && s.procs[p].Filtering? ==> s.procs[p].limit == limit && s.procs[p].filter.DomainFilter?
  }

  lemma MirroredPlace(s: System, limit: nat, p: nat, q: Process)
    requires p < |s.procs|
    ensures Mirrored(Place(s, p, q), limit) == Place(Mirrored(s, limit), p, MirroredProcess(q))
  {
    assert Mirrored(Place(s, p, q), limit).procs == Mirrored(s, limit).procs[p := MirroredProcess(q)];
  }

  lemma MirroredCommand(s: System, limit: nat, p: nat)
    requires DomainOnly(s, limit) && p < |s.procs| && s.procs[p].Filtering?
    ensures DomainOnly(NextCommand(s, p), limit)
    ensures Mirrored(NextCommand(s, p), limit) == NextCommand(Mirrored(s, limit), p)
  {
    var (c, verdict) := Issue(s.domain, limit, s.procs[p].command);
    match verdict
    case GoOn(next) => MirroredPlace(s.(domain := c), limit, p, Filtering(limit, DomainFilter, next));
    case LimitReached => MirroredPlace(s.(domain := c), limit, p, Free);
    case LetThrough => MirroredPlace(s.(domain := c, enqueued := s.enqueued + 1), limit, p, Free);
  }

  lemma MirroredStep(s: System, limit: nat, a: Action, b: Action)
    requires DomainOnly(s, limit)
    requires a == match b case Arrive(p, _) => Arrive(p, limit) case Advance(p) => Advance(p)
    requires b.Arrive? ==> b.limit == 0
    ensures DomainOnly(Step(s, a), limit)
    ensures Mirrored(Step(s, a), limit) == Step(Mirrored(s, limit), b)
  {
    if a.p < |s.procs| {
      match a
      case Arrive(p, _) => MirroredPlace(s, limit, p, Filtering(limit, DomainFilter, Exists));
      case Advance(p) => if s.procs[p].Filtering? { MirroredCommand(s, limit, p); }
    }
  }

  lemma {:induction false} MirroredRun(s: System, limit: nat, schedule: seq<Action>)
    requires DomainOnly(s, limit) && LimitsAre(schedule, 0)
    ensures DomainOnly(Run(s, WithLimit(schedule, limit)), limit)
    ensures Mirrored(Run(s, WithLimit(schedule, limit)), limit) == Run(Mirrored(s, limit), schedule)
    decreases |schedule|
  {
    if schedule == [] {
    } else {
      var n := |schedule| - 1;
      MirroredRun(s, limit, schedule[..n]);
      assert WithLimit(schedule, limit)[..n] == WithLimit(schedule[..n], limit);
      MirroredStep(Run(s, WithLimit(schedule[..n], limit)), limit, WithLimit(schedule, limit)[n], schedule[n]);
    }
  }

  /** The global filter's bound, in every run of n schedulers that starts without the key, with the domain filter off. */
  ghost predicate GlobalAlwaysWithinLimit(n: nat, limit: nat) {
    forall schedule :: LimitsAre(schedule, 0) ==> |Run(Start(limit, None, None, n), schedule).global.passed| < limit
  }

  lemma GlobalPassesAsDomain(n: nat, limit: nat, schedule: seq<Action>)
    requires 0 < limit && LimitsAre(schedule, 0)
    ensures LimitsAre(WithLimit(schedule, limit), limit)
    ensures Run(Start(limit, None, None, n), schedule).global.passed
            == Run(Start(0, None, None, n), WithLimit(schedule, limit)).domain.passed
  {
    MirroredRun(Start(0, None, None, n), limit, schedule);
    assert Mirrored(Start(0, None, None, n), limit) == Start(limit, None, None, n);
  }

  /** Main result: the global filter has the same race, under the same condition. */
  lemma MissingGlobalKeyNeedsOneScheduler(n: nat, limit: nat)
    requires 0 < limit
    ensures GlobalAlwaysWithinLimit(n, limit) <==> n <= 1 || limit == 1
  {
    MissingKeyNeedsOneScheduler(n, limit);
    if AlwaysWithinLimit(n, limit) {
      forall schedule | LimitsAre(schedule, 0)
        ensures |Run(Start(limit, None, None, n), schedule).global.passed| < limit
      {
        GlobalPassesAsDomain(n, limit, schedule);
      }
    } else {
      var schedule :| LimitsAre(schedule, limit) && |Run(Start(0, None, None, n), schedule).domain.passed| >= limit;
      var other := WithLimit(schedule, 0);
      GlobalPassesAsDomain(n, limit, other);
      assert WithLimit(other, limit) == schedule;
      assert !GlobalAlwaysWithinLimit(n, limit);
    }
  }
}
