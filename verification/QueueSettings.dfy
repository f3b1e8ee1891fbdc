/** The throttle settings that the configuration prescribes for each domain's queue. */
module QueueSettings {
  import opened Options
  import opened Frontier

  /** A domain's entry in the loaded configuration; `window` and `hits` may be missing. */
  datatype RawConf = RawConf(window: Option<real>, hits: Option<nat>, scale: Option<real>)

  /** An entry that passed the vetting. */
  datatype DomainConf = DomainConf(window: real, hits: nat, scale: Option<real>)

  /** The parsed configuration file; either section may be missing. */
  datatype Loaded = Loaded(domains: Option<map<string, RawConf>>, blacklist: Option<set<string>>)

  datatype Settings = Settings(
    spider: string, window: real, hits: nat, moderated: bool,
    itemRetries: nat, backlogBlacklist: bool, queueTimeout: real, globalPageLimit: nat, dupeTimeout: real)

  /**
   * A throttled queue in the scheduler's memory, and when it last gave an item.
   * `moderation` is the gap it keeps between two pops, if it keeps one.
   */
  datatype Cached = Cached(window: real, limit: nat, moderation: Option<real>, lastUsed: real)

  function FitScale(scale: real): (r: real)
    ensures 0.0 <= r <= 1.0
    ensures 0.0 <= scale <= 1.0 ==> r == scale
    ensures scale < 0.0 ==> r == 0.0
    ensures 1.0 < scale ==> r == 1.0
  {
    if scale >= 1.0 then 1.0 else if scale <= 0.0 then 0.0 else scale
  }

  /** `int(hits * scale)`, which rounds down. */
  function EffectiveHits(conf: DomainConf): (n: nat)
    ensures n <= conf.hits
    ensures conf.scale.None? ==> n == conf.hits
    ensures conf.scale.Some? ==> n as real <= conf.hits as real * FitScale(conf.scale.value) < n as real + 1.0
  {
    match conf.scale
    case None => conf.hits
    case Some(scale) =>
      var f := FitScale(scale);
      ScaledWithin(conf.hits, f);
      (conf.hits as real * f).Floor
  }

  lemma ScaledWithin(hits: nat, f: real)
    requires 0.0 <= f <= 1.0
    ensures 0.0 <= hits as real * f <= hits as real
    ensures 0 <= (hits as real * f).Floor <= hits
  {
    var h := hits as real;
    assert 0.0 <= h * f;
    assert 0.0 <= h * (1.0 - f);
  }

  /** Only entries with both a window and hits are kept. */
  function Vetted(domains: map<string, RawConf>): map<string, DomainConf> {
    map d | d in domains && domains[d].window.Some? && domains[d].hits.Some? ::
      DomainConf(domains[d].window.value, domains[d].hits.value, domains[d].scale)
  }

  type Config = map<string, DomainConf>

  /** What the configuration prescribes for a queue: its domain's values, or the defaults. */
  function PrescribedWindow(settings: Settings, config: Config, key: QueueKey): real {
    if key.domain in config then config[key.domain].window else settings.window
  }

  function PrescribedLimit(settings: Settings, config: Config, key: QueueKey): nat {
    if key.domain in config then EffectiveHits(config[key.domain]) else settings.hits
  }

  /** A moderated queue divides by its limit. */
  predicate Buildable(settings: Settings, config: Config) {
    settings.moderated ==> settings.hits != 0 && forall d :: d in config ==> EffectiveHits(config[d]) != 0
  }

  /** The gap that moderation keeps with these values. */
  function GapOf(settings: Settings, window: real, limit: nat): Option<real>
    requires settings.moderated ==> limit != 0
  {
    if settings.moderated && limit != 1 then Some(window / limit as real) else None
  }

  /** The queue throttles as the configuration says, moderation included. */
  predicate AsPrescribed(settings: Settings, config: Config, key: QueueKey, q: Cached)
    requires Buildable(settings, config)
  {
    var window, limit := PrescribedWindow(settings, config, key), PrescribedLimit(settings, config, key);
    q.window == window && q.limit == limit && q.moderation == GapOf(settings, window, limit)
  }

  /** A new throttled queue object. */
  function Build(settings: Settings, window: real, limit: nat, now: real): Cached
    requires settings.moderated ==> limit != 0
  {
    Cached(window, limit, GapOf(settings, window, limit), now)
  }

  function Rebuilt(settings: Settings, config: Config, key: QueueKey, now: real): Cached
    requires Buildable(settings, config)
  {
    Build(settings, PrescribedWindow(settings, config, key), PrescribedLimit(settings, config, key), now)
  }

  type Cache = map<QueueKey, Cached>

  /** The cache after `create_queues`: live queues that are new, or all live queues if the configuration is, are built. */
  function Refreshed(settings: Settings, config: Config, cache: Cache, live: set<QueueKey>, reload: bool, now: real): Cache
    requires Buildable(settings, config)
  {
    map k | k in cache.Keys + live ::
      if k in live && (k !in cache || reload) then Rebuilt(settings, config, k, now) else cache[k]
  }

  /** The cache after `update_domain_queues`: configured domains change window and limit in place. */
  function Updated(settings: Settings, config: Config, cache: Cache): Cache {
    map k | k in cache ::
      if k.spider == settings.spider && k.domain in config
      then cache[k].(window := config[k.domain].window, limit := EffectiveHits(config[k.domain]))
      else cache[k]
  }

  /** The cache after `error_config`: configured domains go back to the defaults. */
  function Reverted(settings: Settings, config: Config, cache: Cache): Cache {
    map k | k in cache ::
      if k.spider == settings.spider && k.domain in config
      then cache[k].(window := settings.window, limit := settings.hits)
      else cache[k]
  }

  /** The queues used recently enough, and those still to be looked at. */
  function InUse(cache: Cache, timeout: real, now: real, left: set<QueueKey>): Cache {
    map k | k in cache && (k in left || now - cache[k].lastUsed <= timeout) :: cache[k]
  }

  /** A queue that gave an item was used just now. */
  function Touched(cache: Cache, key: QueueKey, now: real): Cache {
    if key in cache then cache[key := cache[key].(lastUsed := now)] else cache
  }

  // ------------------------------------------------------ the change in place

  /**
   * The gap that old values prescribe is also right for the new ones: no gap with
   * either, or the same ratio of window and limit.
   */
  predicate GapCarriesOver(settings: Settings, window: real, limit: nat, window': real, limit': nat) {
    || !settings.moderated
    || (limit == 1 && limit' == 1)
    || (limit != 1 && limit' != 1 && window * limit' as real == window' * limit as real)
  }

  lemma RatiosAgree(a: real, m: nat, b: real, n: nat)
    requires m != 0 && n != 0
    ensures a / m as real == b / n as real <==> a * n as real == b * m as real
  {
    var x, y, p, q := a / m as real, b / n as real, m as real, n as real;
    assert a == x * p && b == y * q;
    assert a * q == x * (p * q) && b * p == y * (p * q);
    assert 0.0 < p * q;
    if x != y {
      assert (x - y) * (p * q) != 0.0;
    }
  }

  /**
   * A configured queue that was built for its old values: the in-place change and
   * the rebuild give it the same window and limit, but the gap is computed only
   * when a queue is built.  The change in place is complete exactly when the old
   * gap carries over.
   */
  lemma InPlaceCompleteIffGapCarriesOver(settings: Settings, config: Config, cache: Cache, key: QueueKey, now: real)
    requires Buildable(settings, config) && key in cache && key.spider == settings.spider && key.domain in config
    requires var q := cache[key];
             (settings.moderated ==> q.limit != 0) && q.moderation == GapOf(settings, q.window, q.limit)
    ensures var u, r := Updated(settings, config, cache)[key], Rebuilt(settings, config, key, now);
            && u.window == r.window && u.limit == r.limit && AsPrescribed(settings, config, key, r)
            && (AsPrescribed(settings, config, key, u) <==>
                  GapCarriesOver(settings, cache[key].window, cache[key].limit,
                                 config[key.domain].window, EffectiveHits(config[key.domain])))
  {
    if settings.moderated {
      RatiosAgree(cache[key].window, cache[key].limit, config[key.domain].window, EffectiveHits(config[key.domain]));
    }
  }

  // -------------------------------------------------------- from one change on

  /** What happens to the cache while the configuration stays: refreshes, expiries and uses. */
  datatype Upkeep =
    | Refresh(live: set<QueueKey>, at: real)
    | Expire(at: real)
    | Use(key: QueueKey, at: real)

  /** The cache, and the queues that pops are tried on. */
  datatype Listing = Listing(cache: Cache, listed: set<QueueKey>)

  function Keep(settings: Settings, config: Config, l: Listing, u: Upkeep): Listing
    requires Buildable(settings, config)
  {
    match u
    case Refresh(live, at) => Listing(Refreshed(settings, config, l.cache, live, false, at), live)
    case Expire(at) =>
      var cache := InUse(l.cache, settings.queueTimeout, at, {});
      Listing(cache, l.listed * cache.Keys)
    case Use(key, at) => Listing(Touched(l.cache, key, at), l.listed)
  }

  function KeepAll(settings: Settings, config: Config, l: Listing, upkeep: seq<Upkeep>): Listing
    requires Buildable(settings, config)
    decreases |upkeep|
  {
    if upkeep == [] then l
    else Keep(settings, config, KeepAll(settings, config, l, upkeep[..|upkeep| - 1]), upkeep[|upkeep| - 1])
  }

  /** Refreshes find queues of this spider. */
  ghost predicate OwnQueues(settings: Settings, upkeep: seq<Upkeep>) {
    forall i, k :: 0 <= i < |upkeep| && upkeep[i].Refresh? && k in upkeep[i].live ==> k.spider == settings.spider
  }

  /** Every listed queue is cached and throttles as the configuration says. */
  ghost predicate AllAsPrescribed(settings: Settings, config: Config, cache: Cache, listed: set<QueueKey>)
    requires Buildable(settings, config)
  {
    forall k :: k in listed ==> k in cache && AsPrescribed(settings, config, k, cache[k])
  }

  /** Whatever happens to the cache while the configuration stays, every listed queue is as prescribed. */
  ghost predicate StaysPrescribed(settings: Settings, config: Config, l: Listing)
    requires Buildable(settings, config)
  {
    forall upkeep :: OwnQueues(settings, upkeep) ==>
      var l' := KeepAll(settings, config, l, upkeep);
      AllAsPrescribed(settings, config, l'.cache, l'.listed)
  }

  /** Every cached queue of the spider is as prescribed, whether it is listed or not. */
  ghost predicate Settled(settings: Settings, config: Config, l: Listing)
    requires Buildable(settings, config)
  {
    && (forall k :: k in l.cache && k.spider == settings.spider ==> AsPrescribed(settings, config, k, l.cache[k]))
    && (forall k :: k in l.listed ==> k in l.cache && k.spider == settings.spider)
  }

  lemma {:induction false} KeepAllSettled(settings: Settings, config: Config, l: Listing, upkeep: seq<Upkeep>)
    requires Buildable(settings, config) && Settled(settings, config, l) && OwnQueues(settings, upkeep)
    ensures Settled(settings, config, KeepAll(settings, config, l, upkeep))
    decreases |upkeep|
  {
    if upkeep == [] {
    } else {
      KeepAllSettled(settings, config, l, upkeep[..|upkeep| - 1]);
    }
  }

  /**
   * From any cache whose listed queues are cached: all pops are throttled as
   * prescribed for good exactly when every cached queue of the spider is as
   * prescribed, because a later refresh may list any of them.
   */
  lemma StaysIffSettled(settings: Settings, config: Config, l: Listing)
    requires Buildable(settings, config)
    requires forall k :: k in l.listed ==> k in l.cache && k.spider == settings.spider
    ensures StaysPrescribed(settings, config, l) <==> Settled(settings, config, l)
  {
    if k :| k in l.cache && k.spider == settings.spider && !AsPrescribed(settings, config, k, l.cache[k]) {
      var upkeep := [Refresh({k}, 0.0)];
      assert upkeep[..0] == [];
      assert KeepAll(settings, config, l, []) == l;
      assert KeepAll(settings, config, l, upkeep) == Keep(settings, config, l, upkeep[0]);
      assert k in KeepAll(settings, config, l, upkeep).listed;
      assert OwnQueues(settings, upkeep) && !StaysPrescribed(settings, config, l);
    } else {
      forall upkeep | OwnQueues(settings, upkeep)
        ensures var l' := KeepAll(settings, config, l, upkeep); AllAsPrescribed(settings, config, l'.cache, l'.listed)
      {
        KeepAllSettled(settings, config, l, upkeep);
      }
    }
  }

  /** The cache right after a configuration was loaded, and the live queues listed. */
  function AfterChange(settings: Settings, config: Config, cache: Cache, live: set<QueueKey>, now: real): Cache
    requires Buildable(settings, config)
  {
    Refreshed(settings, config, Updated(settings, config, cache), live, true, now)
  }

  /**
   * Right after the change, every live queue throttles as prescribed, because it
   * is built anew; its gap would otherwise be the old one.
   */
  lemma ChangePrescribes(settings: Settings, config: Config, cache: Cache, live: set<QueueKey>, now: real)
    requires Buildable(settings, config)
    ensures AllAsPrescribed(settings, config, AfterChange(settings, config, cache, live, now), live)
  {
  }

  /**
   * The queue throttles as the file says: with the window and the hits of its
   * domain's entry if that has both, scaled down if the entry says so, and with the
   * defaults if not.  A moderated queue of several hits keeps each hit's share of the
   * window as a gap.
   */
  ghost predicate AsInFile(settings: Settings, raw: map<string, RawConf>, key: QueueKey, q: Cached) {
    && (if key.domain in raw && raw[key.domain].window.Some? && raw[key.domain].hits.Some? then
          var (hits, scale) := (raw[key.domain].hits.value, raw[key.domain].scale);
          && q.window == raw[key.domain].window.value
          && (scale.None? ==> q.limit == hits)
          && (scale.Some? ==> q.limit as real <= hits as real * FitScale(scale.value) < q.limit as real + 1.0)
        else q.window == settings.window && q.limit == settings.hits)
    && (settings.moderated ==> q.limit != 0)
    && q.moderation == if settings.moderated && q.limit != 1 then Some(q.window / q.limit as real) else None
  }

  /** A domain is configured exactly if the file gives it a window and hits, and then all three values are the file's. */
  lemma FileIsVetted(raw: map<string, RawConf>)
    ensures forall d :: d in Vetted(raw) <==> d in raw && raw[d].window.Some? && raw[d].hits.Some?
    ensures forall d :: d in Vetted(raw) ==>
              var conf := Vetted(raw)[d];
              raw[d] == RawConf(Some(conf.window), Some(conf.hits), conf.scale)
  {
  }

  /** So a queue throttles as prescribed exactly if it throttles as the file says. */
  lemma PrescribedIffAsInFile(settings: Settings, raw: map<string, RawConf>, key: QueueKey, q: Cached)
    requires Buildable(settings, Vetted(raw))
    ensures AsPrescribed(settings, Vetted(raw), key, q) <==> AsInFile(settings, raw, key, q)
  {
    if key.domain in Vetted(raw) {
      LimitIsRoundedDown(Vetted(raw)[key.domain], q.limit);
    }
  }

  lemma LimitIsRoundedDown(conf: DomainConf, n: nat)
    ensures n == EffectiveHits(conf) <==>
              && (conf.scale.None? ==> n == conf.hits)
              && (conf.scale.Some? ==> n as real <= conf.hits as real * FitScale(conf.scale.value) < n as real + 1.0)
  {
    if conf.scale.Some? {
      OnlyOneFloor(conf.hits as real * FitScale(conf.scale.value), n, EffectiveHits(conf));
    }
  }

  lemma OnlyOneFloor(x: real, m: nat, n: nat)
    requires n as real <= x < n as real + 1.0
    ensures m == n <==> m as real <= x < m as real + 1.0
  {
  }

  /**
   * A cached queue that a change passes by: it is empty in Redis when the
   * configuration is loaded, so nobody rebuilds it.  If it is configured its gap is
   * left, if not its window, limit and gap are.
   */
  predicate SlipsThrough(settings: Settings, config: Config, key: QueueKey, q: Cached, live: set<QueueKey>)
    requires Buildable(settings, config)
  {
    var window, limit := PrescribedWindow(settings, config, key), PrescribedLimit(settings, config, key);
    && key.spider == settings.spider && key !in live
    && (q.moderation != GapOf(settings, window, limit)
        || (key.domain !in config && (q.window != window || q.limit != limit)))
  }

  /**
   * Main result: over every later series of refreshes, expiries and uses, every
   * listed queue throttles as the new configuration says if and only if no cached
   * queue slips through the change.
   */
  lemma ChangeLastsIffNoneSlipsThrough(settings: Settings, config: Config, cache: Cache, live: set<QueueKey>, now: real)
    requires Buildable(settings, config) && forall k :: k in live ==> k.spider == settings.spider
    ensures StaysPrescribed(settings, config, Listing(AfterChange(settings, config, cache, live, now), live))
            <==> forall k :: k in cache ==> !SlipsThrough(settings, config, k, cache[k], live)
  {
    var l := Listing(AfterChange(settings, config, cache, live, now), live);
    StaysIffSettled(settings, config, l);
    forall k | k in cache && k.spider == settings.spider
      ensures AsPrescribed(settings, config, k, l.cache[k]) <==> !SlipsThrough(settings, config, k, cache[k], live)
    {
      assert k !in live ==> l.cache[k] == Updated(settings, config, cache)[k];
    }
    forall k | k in l.cache && k !in cache ensures AsPrescribed(settings, config, k, l.cache[k]) {
      assert k in live;
    }
  }

  /** Twice the hits in the same window, while the queue is empty: once filled, it still keeps the gap of half as many. */
  lemma StaleGapSlipsThrough()
    ensures var settings := Settings("link", 60.0, 10, true, 3, true, 3600.0, 0, 600.0);
            var key, config := QueueKey("link", "example.com"), map["example.com" := DomainConf(60.0, 20, None)];
            var cache := map[key := Cached(60.0, 10, Some(6.0), 0.0)];
            var changed := AfterChange(settings, config, cache, {}, 1.0);
            && Buildable(settings, config)
            && GapOf(settings, 60.0, 20) == Some(3.0) && changed[key].moderation == Some(6.0)
            && !StaysPrescribed(settings, config, Listing(changed, {}))
  {
    var settings := Settings("link", 60.0, 10, true, 3, true, 3600.0, 0, 600.0);
    var key, config := QueueKey("link", "example.com"), map["example.com" := DomainConf(60.0, 20, None)];
    var cache := map[key := Cached(60.0, 10, Some(6.0), 0.0)];
    ChangeLastsIffNoneSlipsThrough(settings, config, cache, {}, 1.0);
    assert SlipsThrough(settings, config, key, cache[key], {});
  }

  /** The cache right after a wiped configuration was reverted; nothing is rebuilt unless a reload was due. */
  function AfterWipe(settings: Settings, config: Config, cache: Cache, live: set<QueueKey>, reload: bool, now: real): Cache
    requires Buildable(settings, map[])
  {
    Refreshed(settings, map[], Reverted(settings, config, cache), live, reload, now)
  }

  /** A queue with settings that reverting does not bring back: a gap, or anything if it was not configured. */
  predicate KeepsOldSettings(settings: Settings, config: Config, key: QueueKey, q: Cached)
    requires Buildable(settings, map[])
  {
    && key.spider == settings.spider
    && (q.moderation != GapOf(settings, settings.window, settings.hits)
        || (key.domain !in config && (q.window != settings.window || q.limit != settings.hits)))
  }

  /**
   * Main result: after a wiped configuration every listed queue throttles by the
   * defaults for good if and only if no cached queue keeps old settings, live ones
   * aside when a reload was due.
   */
  lemma WipeLastsIffNoneKeepsOldSettings(
      settings: Settings, config: Config, cache: Cache, live: set<QueueKey>, reload: bool, now: real)
    requires Buildable(settings, map[]) && forall k :: k in live ==> k.spider == settings.spider
    ensures StaysPrescribed(settings, map[], Listing(AfterWipe(settings, config, cache, live, reload, now), live))
            <==> forall k :: k in cache && !(reload && k in live) ==> !KeepsOldSettings(settings, config, k, cache[k])
  {
    var l := Listing(AfterWipe(settings, config, cache, live, reload, now), live);
    StaysIffSettled(settings, map[], l);
    forall k | k in cache && k.spider == settings.spider
      ensures AsPrescribed(settings, map[], k, l.cache[k])
              <==> (reload && k in live) || !KeepsOldSettings(settings, config, k, cache[k])
    {
      assert !(reload && k in live) ==> l.cache[k] == Reverted(settings, config, cache)[k];
    }
    forall k | k in l.cache && k !in cache ensures AsPrescribed(settings, map[], k, l.cache[k]) {
      assert k in live;
    }
  }
}
