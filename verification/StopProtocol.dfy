/**
 * Stopping a crawl while crawlers go on enqueueing.  The monitor blacklists the
 * crawl and purges the queues three times; a crawler checks the blacklist and
 * then pushes, as two separate commands.  The queues, the blacklist and the
 * crawlers are those of the spider the stop request names.
 */
module StopProtocol {
  import opened Frontier

  /** A crawler between its blacklist check and its push, or not. */
  datatype Crawler = Ready | Cleared(entry: Entry)

  /**
   * Where the monitor stands.  `due` holds the entries that have been stored ever
   * since the pass began and were not listed yet: a scan lists each of them.
   */
  datatype Monitor =
    | Waiting
    | Scanning(pass: nat, due: set<Entry>)
    | Removing(pass: nat, due: set<Entry>, target: Entry)
    | Done

  datatype System = System(
    victim: CrawlId, store: set<Entry>, blacklist: set<string>,
    crawlers: seq<Crawler>, monitor: Monitor)

  datatype Action =
    | Check(p: nat, entry: Entry)
    | Push(p: nat)
    | Pop(entry: Entry)
    | Feed(entry: Entry)
    | Stop
    | List(entry: Entry)
    | Remove
    | EndPass

  /** The number of purges. */
  const PASSES := 3

  function NotDue(m: Monitor, entry: Entry): Monitor {
    match m
    case Scanning(pass, due) => Scanning(pass, due - {entry})
    case Removing(pass, due, target) => Removing(pass, due - {entry}, target)
    case _ => m
  }

  /** One command; an action that is not enabled changes nothing. */
  function Step(s: System, a: Action): System {
    match a
    case Check(p, entry) =>
      if p < |s.crawlers| && s.crawlers[p].Ready? && BlacklistKey(entry.item.id) !in s.blacklist
      then s.(crawlers := s.crawlers[p := Cleared(entry)]) else s
    case Push(p) =>
      if p < |s.crawlers| && s.crawlers[p].Cleared?
      then s.(store := s.store + {s.crawlers[p].entry}, crawlers := s.crawlers[p := Ready]) else s
    case Pop(entry) => s.(store := s.store - {entry}, monitor := NotDue(s.monitor, entry))
    case Feed(entry) => s.(store := s.store + {entry})
    case Stop =>
      if s.monitor.Waiting?
      then s.(blacklist := s.blacklist + {BlacklistKey(s.victim)}, monitor := Scanning(1, s.store)) else s
    case List(entry) =>
      if s.monitor.Scanning? && entry in s.store then
        var due := s.monitor.due - {entry};
        s.(monitor := if entry.item.id == s.victim then Removing(s.monitor.pass, due, entry)
                      else Scanning(s.monitor.pass, due))
      else s
    case Remove =>
      if s.monitor.Removing? then
        var target := s.monitor.target;
        s.(store := s.store - {target}, monitor := Scanning(s.monitor.pass, s.monitor.due - {target}))
      else s
    case EndPass =>
      if s.monitor.Scanning? && s.monitor.due == {}
      then s.(monitor := if s.monitor.pass < PASSES then Scanning(s.monitor.pass + 1, s.store) else Done)
      else s
  }

  function Run(s: System, schedule: seq<Action>): System
    decreases |schedule|
  {
    if schedule == [] then s
    else Step(Run(s, schedule[..|schedule| - 1]), schedule[|schedule| - 1])
  }

  lemma {:induction false} RunConcat(s: System, a: seq<Action>, b: seq<Action>)
    ensures Run(s, a + b) == Run(Run(s, a), b)
    decreases |b|
  {
    if b == [] {
      assert a + b == a;
    } else {
      assert (a + b)[..|a + b| - 1] == a + b[..|b| - 1];
      RunConcat(s, a, b[..|b| - 1]);
    }
  }

  lemma RunOne(s: System, a: Action)
    ensures Run(s, [a]) == Step(s, a)
  {
    assert [a][..0] == [];
  }

  /** What is stored after an action: seeds and cleared requests come in, pops and the monitor's removals take out. */
  lemma StoreChanges(s: System, a: Action, e: Entry)
    ensures e in Step(s, a).store <==>
              || a == Feed(e)
              || (a.Push? && a.p < |s.crawlers| && s.crawlers[a.p] == Cleared(e))
              || (e in s.store && a != Pop(e) && !(a.Remove? && s.monitor.Removing? && s.monitor.target == e))
  {
  }

  predicate OfVictim(s: System, e: Entry) {
    e.item.id == s.victim
  }

  /** Some crawler has passed the check with this entry of the stopped crawl. */
  ghost predicate Straggling(s: System, e: Entry) {
    OfVictim(s, e) && exists p :: 0 <= p < |s.crawlers| && s.crawlers[p] == Cleared(e)
  }

  predicate Blacklisted(s: System) {
    BlacklistKey(s.victim) in s.blacklist
  }

  /** Once blacklisted, a crawl stays so, and a crawler cleared for it was cleared before. */
  ghost predicate NothingNewCleared(s: System, s': System) {
    && s'.victim == s.victim && Blacklisted(s') && |s'.crawlers| == |s.crawlers|
    && forall p :: 0 <= p < |s.crawlers| && s'.crawlers[p].Cleared? && OfVictim(s, s'.crawlers[p].entry)
                   ==> s.crawlers[p] == s'.crawlers[p]
  }

  /**
   * Main result: an enqueue that checks the blacklist after the crawl was added
   * to it never gets to push a request of that crawl.
   */
  lemma {:induction false} ChecksAfterStopFail(s: System, schedule: seq<Action>)
    requires Blacklisted(s)
    ensures NothingNewCleared(s, Run(s, schedule))
    decreases |schedule|
  {
    if schedule == [] {
    } else {
      ChecksAfterStopFail(s, schedule[..|schedule| - 1]);
    }
  }

  /** The monitor is in its last pass, or past it. */
  predicate InLastPass(s: System) {
    match s.monitor
    case Waiting => false
    case Scanning(pass, _) => 3 <= pass
    case Removing(pass, _, _) => 3 <= pass
    case Done => true
  }

  predicate StillToPurge(s: System, e: Entry) {
    match s.monitor
    case Scanning(_, due) => e in due
    case Removing(_, due, target) => e in due || e == target
    case _ => false
  }

  /** A stored entry of the crawl is one a straggler pushed since s0, or was fed since, or will still be purged. */
  ghost predicate LastPassInv(s0: System, fed: seq<Action>, s: System) {
    && InLastPass(s)
    && NothingNewCleared(s0, s)
    && forall e :: e in s.store && OfVictim(s, e) ==> Straggling(s0, e) || Feed(e) in fed || StillToPurge(s, e)
  }

  lemma LastPassStep(s0: System, fed: seq<Action>, s: System, a: Action)
    requires LastPassInv(s0, fed, s)
    ensures LastPassInv(s0, fed + [a], Step(s, a))
  {
    var s' := Step(s, a);
    if a.Push? && s' != s {
      assert s.crawlers[a.p] == Cleared(s.crawlers[a.p].entry);
    }
    forall e | e in s'.store && OfVictim(s', e) ensures Straggling(s0, e) || Feed(e) in fed + [a] || StillToPurge(s', e) {
      if a.Push? && e !in s.store {
        assert s0.crawlers[a.p] == Cleared(e);
      } else if a == Feed(e) {
        assert (fed + [a])[|fed|] == Feed(e);
      }
    }
  }

  /** The third pass begins: everything stored is due, and some crawlers may be cleared already. */
  predicate ThirdPassBegins(s: System) {
    s.monitor == Scanning(3, s.store) && Blacklisted(s)
  }

  lemma {:induction false} LastPassRun(s0: System, schedule: seq<Action>)
    requires ThirdPassBegins(s0)
    ensures LastPassInv(s0, schedule, Run(s0, schedule))
    decreases |schedule|
  {
    if schedule == [] {
    } else {
      var before := schedule[..|schedule| - 1];
      LastPassRun(s0, before);
      LastPassStep(s0, before, Run(s0, before), schedule[|schedule| - 1]);
      assert schedule == before + [schedule[|schedule| - 1]];
    }
  }

  /**
   * Main result: the only requests of the crawl that outlive the purges are those
   * of crawlers that were between check and push when the third pass began, and
   * seeds fed since.
   */
  lemma OnlyStragglersAndSeedsSurvive(s0: System, schedule: seq<Action>)
    requires ThirdPassBegins(s0) && Run(s0, schedule).monitor.Done?
    ensures forall e :: e in Run(s0, schedule).store && e.item.id == s0.victim ==>
              Straggling(s0, e) || Feed(e) in schedule
  {
    LastPassRun(s0, schedule);
  }

  // ------------------------------------------------------------- whole runs

  lemma {:induction false} BlacklistedSinceStop(s: System, schedule: seq<Action>)
    requires s.monitor.Waiting?
    ensures var s' := Run(s, schedule); s'.victim == s.victim && (s'.monitor.Waiting? || Blacklisted(s'))
    decreases |schedule|
  {
    if schedule == [] {
    } else {
      BlacklistedSinceStop(s, schedule[..|schedule| - 1]);
    }
  }

  /** The moment the stop is handled. */
  lemma {:induction false} StopHappens(s: System, schedule: seq<Action>) returns (k: nat)
    requires s.monitor.Waiting? && !Run(s, schedule).monitor.Waiting?
    ensures k < |schedule| && schedule[k] == Stop && Run(s, schedule[..k]).monitor.Waiting?
    decreases |schedule|
  {
    var n := |schedule| - 1;
    if Run(s, schedule[..n]).monitor.Waiting? {
      k := n;
    } else {
      k := StopHappens(s, schedule[..n]);
      assert schedule[..n][..k] == schedule[..k];
    }
  }

  /** The moment the third pass begins. */
  lemma {:induction false} ThirdPassHappens(s: System, schedule: seq<Action>) returns (k: nat)
    requires s.monitor.Waiting? && InLastPass(Run(s, schedule))
    ensures k <= |schedule| && ThirdPassBegins(Run(s, schedule[..k]))
    decreases |schedule|
  {
    var n := |schedule| - 1;
    BlacklistedSinceStop(s, schedule);
    if InLastPass(Run(s, schedule[..n])) {
      k := ThirdPassHappens(s, schedule[..n]);
      assert schedule[..n][..k] == schedule[..k];
    } else {
      k := n + 1;
      assert schedule[..k] == schedule;
    }
  }

  lemma RunFrom(s: System, schedule: seq<Action>, j: nat, k: nat)
    requires j <= k <= |schedule|
    ensures Run(s, schedule[..k]) == Run(Run(s, schedule[..j]), schedule[j..k])
  {
    assert schedule[..k] == schedule[..j] + schedule[j..k];
    RunConcat(s, schedule[..j], schedule[j..k]);
  }

  /**
   * Main result, from the stop request to the end: a request of the crawl that
   * outlives the three purges had passed its blacklist check before the crawl was
   * blacklisted, or is a seed fed since the third pass began, at `third`.
   */
  lemma SurvivorsCheckedBeforeStop(s: System, schedule: seq<Action>, e: Entry) returns (k: nat, third: nat)
    requires s.monitor.Waiting?
    requires Run(s, schedule).monitor.Done? && e in Run(s, schedule).store && OfVictim(s, e)
    ensures k < third <= |schedule| && schedule[k] == Stop && Run(s, schedule[..k]).monitor.Waiting?
    ensures ThirdPassBegins(Run(s, schedule[..third]))
    ensures Straggling(Run(s, schedule[..k]), e) || Feed(e) in schedule[third..]
  {
    var n := |schedule|;
    assert schedule[..n] == schedule;
    k := StopHappens(s, schedule);
    third := ThirdPassHappens(s, schedule);
    var s3 := Run(s, schedule[..third]);
    BlacklistedSinceStop(s, schedule[..third]);
    RunFrom(s, schedule, third, n);
    OnlyStragglersAndSeedsSurvive(s3, schedule[third..]);
    if third <= k {
      RunFrom(s, schedule, third, k);
      LastPassRun(s3, schedule[third..k]);
      assert false;
    }
    if Straggling(s3, e) {
      StragglerWasCleared(s, schedule, k, third, e);
    }
  }

  /** A straggler after the stop was one before it. */
  lemma StragglerWasCleared(s: System, schedule: seq<Action>, k: nat, third: nat, e: Entry)
    requires s.monitor.Waiting? && k < third <= |schedule|
    requires schedule[k] == Stop && Run(s, schedule[..k]).monitor.Waiting?
    requires Straggling(Run(s, schedule[..third]), e)
    ensures Straggling(Run(s, schedule[..k]), e)
  {
    BlacklistedSinceStop(s, schedule[..k]);
    BlacklistedSinceStop(s, schedule[..third]);
    var s1, s2, s3 := Run(s, schedule[..k]), Run(s, schedule[..k + 1]), Run(s, schedule[..third]);
    assert schedule[..k + 1][..k] == schedule[..k];
    assert s2 == Step(s1, Stop);
    RunFrom(s, schedule, k + 1, third);
    ChecksAfterStopFail(s2, schedule[k + 1..third]);
    var p :| 0 <= p < |s3.crawlers| && s3.crawlers[p] == Cleared(e);
    assert s1.crawlers[p] == Cleared(e);
  }

  // ------------------------------------------------ and they can indeed survive

  /** The seeds that are fed are some of these. */
  ghost predicate FedFrom(seeds: set<Entry>, schedule: seq<Action>) {
    forall i :: 0 <= i < |schedule| && schedule[i].Feed? ==> schedule[i].entry in seeds
  }

  /** Left alone, the monitor finishes its passes, and no crawler moves. */
  lemma {:induction false} PassesCanFinish(s: System) returns (schedule: seq<Action>)
    requires s.monitor.Scanning? && s.monitor.pass <= 3 && s.monitor.due <= s.store
    ensures var s' := Run(s, schedule);
            s'.monitor.Done? && s'.crawlers == s.crawlers && s'.victim == s.victim && FedFrom({}, schedule)
    decreases 3 - s.monitor.pass, |s.monitor.due|
  {
    if s.monitor.due == {} {
      schedule := [EndPass];
      RunOne(s, EndPass);
      if s.monitor.pass < 3 {
        var rest := PassesCanFinish(Step(s, EndPass));
        RunConcat(s, schedule, rest);
        schedule := schedule + rest;
      }
    } else {
      var e :| e in s.monitor.due;
      var first := ListedAndRemoved(s, e);
      var rest := PassesCanFinish(Run(s, first));
      schedule := first + rest;
      RunConcat(s, first, rest);
    }
  }

  /** The monitor lists an entry, and removes it if it is of the crawl. */
  lemma ListedAndRemoved(s: System, e: Entry) returns (first: seq<Action>)
    requires s.monitor.Scanning? && e in s.monitor.due && s.monitor.due <= s.store
    ensures var s' := Run(s, first);
            && s'.monitor == Scanning(s.monitor.pass, s.monitor.due - {e})
            && s'.store == (if OfVictim(s, e) then s.store - {e} else s.store)
            && s'.crawlers == s.crawlers && s'.victim == s.victim && FedFrom({}, first)
  {
    first := if OfVictim(s, e) then [List(e), Remove] else [List(e)];
    assert [List(e), Remove] == [List(e)] + [Remove];
    RunOne(s, List(e));
    RunOne(Step(s, List(e)), Remove);
    RunConcat(s, [List(e)], [Remove]);
  }

  /** What is due is stored, and there are three passes. */
  predicate MonitorInv(s: System) {
    match s.monitor
    case Scanning(pass, due) => 1 <= pass <= 3 && due <= s.store
    case Removing(pass, due, _) => 1 <= pass <= 3 && due <= s.store
    case _ => true
  }

  lemma {:induction false} RunMonitorInv(s: System, schedule: seq<Action>)
    requires s.monitor.Waiting?
    ensures MonitorInv(Run(s, schedule))
    decreases |schedule|
  {
    if schedule == [] {
    } else {
      RunMonitorInv(s, schedule[..|schedule| - 1]);
    }
  }

  /** From any state of a run after the stop, whatever the crawlers did, the monitor can finish by itself. */
  lemma PurgeCanFinish(s: System, schedule: seq<Action>) returns (more: seq<Action>)
    requires s.monitor.Waiting? && !Run(s, schedule).monitor.Waiting?
    ensures Run(s, schedule + more).monitor.Done? && FedFrom({}, more)
    ensures Run(s, schedule + more).crawlers == Run(s, schedule).crawlers
  {
    RunMonitorInv(s, schedule);
    var s1 := Run(s, schedule);
    if s1.monitor.Done? {
      more := [];
    } else if s1.monitor.Removing? {
      RunOne(s1, Remove);
      var rest := PassesCanFinish(Step(s1, Remove));
      more := [Remove] + rest;
      RunConcat(s1, [Remove], rest);
    } else {
      more := PassesCanFinish(s1);
    }
    RunConcat(s, schedule, more);
  }

  /** Every run that finishes the purge, with only these seeds fed, leaves nothing of the crawl. */
  ghost predicate PurgeIsFinal(s0: System, seeds: set<Entry>) {
    forall schedule :: FedFrom(seeds, schedule) && Run(s0, schedule).monitor.Done? ==>
      forall e :: e in Run(s0, schedule).store ==> e.item.id != s0.victim
  }

  /** After the purge one more action stores the entry. */
  lemma ComesLate(s0: System, seeds: set<Entry>, a: Action, e: Entry)
    requires ThirdPassBegins(s0) && OfVictim(s0, e)
    requires a == Feed(e) || exists p: nat :: a == Push(p) && p < |s0.crawlers| && s0.crawlers[p] == Cleared(e)
    requires FedFrom(seeds, [a])
    ensures !PurgeIsFinal(s0, seeds)
  {
    var finish := PassesCanFinish(s0);
    var schedule := finish + [a];
    RunConcat(s0, finish, [a]);
    RunOne(Run(s0, finish), a);
    forall i | 0 <= i < |schedule| && schedule[i].Feed? ensures schedule[i].entry in seeds {
      assert i == |finish| ==> schedule[i] == [a][0];
    }
    assert FedFrom(seeds, schedule) && Run(s0, schedule).monitor.Done? && e in Run(s0, schedule).store;
  }

  /**
   * Main result: the purge is final in every run that feeds only these seeds
   * exactly when no crawler was between check and push of the crawl when the third
   * pass began, and none of the seeds is of the crawl.
   */
  lemma PurgeFinalIffNoStragglerNoSeed(s0: System, seeds: set<Entry>)
    requires ThirdPassBegins(s0)
    ensures PurgeIsFinal(s0, seeds) <==> (forall e :: !Straggling(s0, e)) && forall e :: e in seeds ==> !OfVictim(s0, e)
  {
    if e :| Straggling(s0, e) {
      var p :| 0 <= p < |s0.crawlers| && s0.crawlers[p] == Cleared(e);
      ComesLate(s0, seeds, Push(p), e);
    } else if e :| e in seeds && OfVictim(s0, e) {
      ComesLate(s0, seeds, Feed(e), e);
    } else {
      forall schedule | FedFrom(seeds, schedule) && Run(s0, schedule).monitor.Done?
        ensures forall e :: e in Run(s0, schedule).store ==> e.item.id != s0.victim
      {
        OnlyStragglersAndSeedsSurvive(s0, schedule);
      }
    }
  }

  /**
   * Seeds are not checked, and nobody comes back for them: one that is fed when the
   * purge is over stays stored until it is popped, blacklisted as its crawl is.
   */
  lemma {:induction false} LateSeedStays(s: System, e: Entry, schedule: seq<Action>)
    requires Blacklisted(s) && OfVictim(s, e) && s.monitor.Done?
    requires forall i :: 0 <= i < |schedule| ==> schedule[i] != Pop(e)
    ensures var s' := Run(Step(s, Feed(e)), schedule);
            s'.victim == s.victim && Blacklisted(s') && s'.monitor.Done? && e in s'.store
    decreases |schedule|
  {
    if schedule == [] {
    } else {
      LateSeedStays(s, e, schedule[..|schedule| - 1]);
    }
  }

  // ---------------------------------------------------------- the other crawls

  predicate ByMonitor(a: Action) {
    a.Stop? || a.List? || a.Remove? || a.EndPass?
  }

  /** What the monitor removes is of the stopped crawl. */
  predicate TargetOk(s: System) {
    s.monitor.Removing? ==> OfVictim(s, s.monitor.target)
  }

  /** The commands of the monitor add nothing and remove only entries of the stopped crawl. */
  lemma MonitorSparesOthers(s: System, a: Action)
    requires TargetOk(s)
    ensures TargetOk(Step(s, a))
    ensures ByMonitor(a) ==>
              && Step(s, a).store <= s.store && Step(s, a).crawlers == s.crawlers
              && forall e :: e in s.store && e !in Step(s, a).store ==> OfVictim(s, e)
  {
  }

  /**
   * Main result: an entry of another crawl that nobody pops stays stored through
   * any run, purges included.
   */
  lemma {:induction false} OthersStayStored(s: System, schedule: seq<Action>, e: Entry)
    requires TargetOk(s) && e in s.store && !OfVictim(s, e)
    requires forall i :: 0 <= i < |schedule| ==> schedule[i] != Pop(e)
    ensures var s' := Run(s, schedule); TargetOk(s') && e in s'.store && s'.victim == s.victim
    decreases |schedule|
  {
    if schedule == [] {
    } else {
      var before := schedule[..|schedule| - 1];
      OthersStayStored(s, before, e);
      MonitorSparesOthers(Run(s, before), schedule[|schedule| - 1]);
    }
  }

  /** A run adds the stopped crawl's entry to the blacklist once the stop is handled, and nothing else. */
  lemma {:induction false} RunBlacklist(s: System, schedule: seq<Action>)
    requires s.monitor.Waiting?
    ensures var s' := Run(s, schedule);
            && s'.victim == s.victim && |s'.crawlers| == |s.crawlers|
            && s'.blacklist == if s'.monitor.Waiting? then s.blacklist else s.blacklist + {BlacklistKey(s.victim)}
    decreases |schedule|
  {
    if schedule == [] {
    } else {
      RunBlacklist(s, schedule[..|schedule| - 1]);
    }
  }

  /**
   * At any time after the stop was handled, a crawler's check turns away a request
   * that it would have let through before exactly if the request's crawl shares its
   * blacklist entry with the stopped one.
   */
  lemma StopBlocksSameKeyOnly(s: System, schedule: seq<Action>, p: nat, e: Entry)
    requires s.monitor.Waiting? && BlacklistKey(e.item.id) !in s.blacklist
    requires var s' := Run(s, schedule); !s'.monitor.Waiting? && p < |s'.crawlers| && s'.crawlers[p].Ready?
    ensures Step(Run(s, schedule), Check(p, e)).crawlers[p] == Cleared(e)
            <==> BlacklistKey(e.item.id) != BlacklistKey(s.victim)
  {
    RunBlacklist(s, schedule);
  }
}
