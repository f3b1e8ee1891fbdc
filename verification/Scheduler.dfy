/**
 * The distributed scheduler: a cache of throttled queues in memory over the
 * queues in Redis, which every scheduler shares.
 */
module Scheduler {
  import opened Options
  import opened Frontier
  import opened QueueSettings
  import opened RedisStore
  import Ledger

  /** A round in which every queue that had something was refused. */
  ghost predicate AllRefused(
      keys: seq<QueueKey>, black: set<string>, scores: map<Entry, int>, gate: (QueueKey, nat) -> bool, round: nat)
  {
    forall e :: e in scores && e.key in keys && e.key.domain !in black ==> !gate(e.key, round)
  }

  /** That many rounds. */
  ghost predicate AllRefusedIn(
      keys: seq<QueueKey>, black: set<string>, scores: map<Entry, int>, gate: (QueueKey, nat) -> bool, rounds: nat)
  {
    forall round :: 0 <= round < rounds ==> AllRefused(keys, black, scores, gate, round)
  }

  /** The throttle let this queue give an item in this round, after every queue in front of it was refused. */
  ghost predicate FirstLetThrough(
      keys: seq<QueueKey>, black: set<string>, scores: map<Entry, int>, gate: (QueueKey, nat) -> bool, round: nat, key: QueueKey)
  {
    exists i :: 0 <= i < |keys| && keys[i] == key && gate(key, round) && AllRefused(keys[..i], black, scores, gate, round)
  }

  /** And every queue that had something was refused in all rounds before. */
  ghost predicate LetThrough(
      keys: seq<QueueKey>, black: set<string>, scores: map<Entry, int>, gate: (QueueKey, nat) -> bool, rounds: nat, key: QueueKey)
  {
    exists round: nat :: round < rounds && FirstLetThrough(keys, black, scores, gate, round, key)
                         && AllRefusedIn(keys, black, scores, gate, round)
  }

  /** Every listed queue is cached, so no lookup in the cache can miss. */
  ghost predicate AllCached(settings: Settings, keys: seq<QueueKey>, cache: Cache) {
    DistinctKeys(keys) && forall k :: k in keys ==> k in cache && k.spider == settings.spider
  }

  /** A request as the scheduler sees it: its encoding, fingerprint, domain and page limit. */
  datatype Req = Req(item: Item, spiderid: string, fingerprint: string, domain: string, maxPages: nat, dontFilter: bool)

  /** The duplicate filter has nothing against a request. */
  predicate Unseen(seen: set<Mark>, mark: Mark, r: Req) {
    r.dontFilter || mark !in seen
  }

  /** What the three filters leave in Redis, whether or not they let the request through. */
  function SeenAfter(seen: set<Mark>, mark: Mark, r: Req): set<Mark> {
    if r.dontFilter then seen else seen + {mark}
  }

  /** How long the marks live after the duplicate filter was asked, if it was. */
  function SeenUntilAfter(until: map<(string, string), real>, mark: Mark, r: Req, end: real): map<(string, string), real> {
    if r.dontFilter then until else until[(mark.spider, mark.crawl) := end]
  }

  function DomainPagesAfter(unseen: bool, pages: Pages, key: PageKey, r: Req): Pages {
    if unseen && r.maxPages != 0 then Counted(pages, key, r.maxPages) else pages
  }

  function GlobalPagesAfter(unseen: bool, domainPages: Pages, pages: Pages, key: PageKey, r: Req, limit: nat): Pages {
    if unseen && PageAllowed(domainPages, key, r.maxPages) && limit != 0 then Counted(pages, key, limit) else pages
  }

  lemma SetOfSnoc(keys: seq<QueueKey>, i: nat)
    requires DistinctKeys(keys) && i < |keys|
    ensures keys[i] !in SetOf(keys[..i]) && SetOf(keys[..i + 1]) == SetOf(keys[..i]) + {keys[i]}
  {
    assert keys[..i + 1] == keys[..i] + [keys[i]];
  }

  /** Refreshing one more live queue. */
  lemma RefreshOne(settings: Settings, config: Config, cache: Cache, done: set<QueueKey>, key: QueueKey, reload: bool, now: real)
    requires Buildable(settings, config) && key !in done
    ensures var before := Refreshed(settings, config, cache, done, reload, now);
            Refreshed(settings, config, cache, done + {key}, reload, now) ==
            if key !in before || reload then before[key := Rebuilt(settings, config, key, now)] else before
  {
  }

  /** One queue takes over its domain's window and limit, if it is cached. */
  function Reconfigured(settings: Settings, conf: DomainConf, cache: Cache, domain: string): Cache {
    var key := QueueKey(settings.spider, domain);
    if key in cache then cache[key := cache[key].(window := conf.window, limit := EffectiveHits(conf))] else cache
  }

  lemma UpdatedOne(settings: Settings, config: Config, cache: Cache, left: set<string>, domain: string)
    requires domain in config && domain in left
    ensures Updated(settings, config - (left - {domain}), cache) ==
            Reconfigured(settings, config[domain], Updated(settings, config - left, cache), domain)
  {
    var config' := config - (left - {domain});
    assert forall d :: d in config' <==> d in config - left || d == domain;
  }

  /** Keys without one of them, as `list.remove` leaves them. */
  function Removed(keys: seq<QueueKey>, key: QueueKey): seq<QueueKey> {
    if keys == [] then []
    else if keys[0] == key then keys[1..]
    else [keys[0]] + Removed(keys[1..], key)
  }

  lemma {:induction false} RemovedDropsKey(keys: seq<QueueKey>, key: QueueKey)
    requires DistinctKeys(keys)
    ensures DistinctKeys(Removed(keys, key)) && SetOf(Removed(keys, key)) == SetOf(keys) - {key}
  {
    if keys == [] {
    } else {
      var rest := keys[1..];
      assert SetOf(keys) == {keys[0]} + SetOf(rest);
      if keys[0] == key {
        assert key !in rest;
      } else {
        RemovedDropsKey(rest, key);
        var removed := Removed(rest, key);
        assert SetOf([keys[0]] + removed) == {keys[0]} + SetOf(removed);
        assert keys[0] !in SetOf(removed);
      }
    }
  }

  class DistributedScheduler {
    const id: nat
    const store: Store
    const settings: Settings
    var queueKeys: seq<QueueKey>
    var queueDict: Cache
    var domainConfig: Config
    var configFlag: bool
    var blackDomains: set<string>
    ghost var pops: nat

    ghost predicate Valid()
      reads this, store`scores
    {
      store.Valid() && AllCached(settings, queueKeys, queueDict) && Buildable(settings, domainConfig)
    }

    /** A scheduler that was opened: the live queues are listed and cached. */
    constructor (id: nat, store: Store, settings: Settings, now: real)
      requires store.Valid() && Buildable(settings, map[])
      ensures Valid() && this.id == id && this.store == store && this.settings == settings
      ensures SetOf(queueKeys) == LiveQueues(store.scores.Keys, settings.spider)
      ensures domainConfig == map[] && blackDomains == {} && !configFlag
    {
      this.id, this.store, this.settings := id, store, settings;
      queueKeys, queueDict, domainConfig, configFlag, blackDomains := [], map[], map[], false, {};
      pops := 0;
      new;
      CreateQueues(now);
    }

    /** The stored requests are only listed, never changed: the store is outside the frame. */
    method CreateQueues(now: real)
      requires Valid()
      modifies this`queueKeys, this`queueDict, this`configFlag
      ensures Valid() && !configFlag
      ensures SetOf(queueKeys) == LiveQueues(store.scores.Keys, settings.spider)
      ensures queueDict == Refreshed(settings, domainConfig, old(queueDict),
                LiveQueues(store.scores.Keys, settings.spider), old(configFlag), now)
      ensures forall k :: k in queueDict <==> k in old(queueDict) || k in queueKeys
      ensures forall k :: k in queueKeys && (k !in old(queueDict) || old(configFlag)) ==>
                AsPrescribed(settings, domainConfig, k, queueDict[k]) && queueDict[k].lastUsed == now
      ensures forall k :: k in old(queueDict) && !(k in queueKeys && old(configFlag)) ==> queueDict[k] == old(queueDict)[k]
    {
      var newConf := configFlag;
      configFlag := false;
      var keys := store.LiveKeys(settings.spider);
      queueKeys := keys;
      assert forall k :: k in keys <==> k in SetOf(keys);
      for i := 0 to |keys|
        invariant queueKeys == keys && !configFlag
        invariant queueDict == Refreshed(settings, domainConfig, old(queueDict), SetOf(keys[..i]), newConf, now)
      {
        SetOfSnoc(keys, i);
        RefreshOne(settings, domainConfig, old(queueDict), SetOf(keys[..i]), keys[i], newConf, now);
        EnsureQueue(keys[i], newConf, now);
      }
      assert keys[..|keys|] == keys;
    }

    /** The body of that loop: a new or reconfigured queue gets a new object. */
    method EnsureQueue(key: QueueKey, newConf: bool, now: real)
      requires Buildable(settings, domainConfig)
      modifies this`queueDict
      ensures queueDict == if key !in old(queueDict) || newConf
                           then old(queueDict)[key := Rebuilt(settings, domainConfig, key, now)] else old(queueDict)
    {
      if key !in queueDict || newConf {
        if key.domain !in domainConfig {
          queueDict := queueDict[key := Build(settings, settings.window, settings.hits, now)];
        } else {
          var conf := domainConfig[key.domain];
          var hits := conf.hits;
          if conf.scale.Some? {
            ScaledWithin(hits, FitScale(conf.scale.value));
            hits := (hits as real * FitScale(conf.scale.value)).Floor;
          }
          assert hits == EffectiveHits(conf);
          queueDict := queueDict[key := Build(settings, conf.window, hits, now)];
        }
      }
    }

    /** Queues unused for too long leave the cache and the list together. */
    method ExpireQueues(now: real)
      requires Valid()
      modifies this`queueKeys, this`queueDict
      ensures Valid()
      ensures forall k :: k in queueDict <==> k in old(queueDict) && now - old(queueDict)[k].lastUsed <= settings.queueTimeout
      ensures forall k :: k in queueDict ==> queueDict[k] == old(queueDict)[k]
      ensures queueDict == InUse(old(queueDict), settings.queueTimeout, now, {})
      ensures SetOf(queueKeys) == set k | k in old(queueKeys) && k in queueDict
    {
      var left := queueDict.Keys;
      while left != {}
        invariant Valid() && left <= old(queueDict).Keys
        invariant queueDict == InUse(old(queueDict), settings.queueTimeout, now, left)
        invariant SetOf(queueKeys) == set k | k in old(queueKeys) && k in queueDict
        decreases left
      {
        var key :| key in left;
        left := left - {key};
        var diff := now - queueDict[key].lastUsed;
        if diff > settings.queueTimeout {
          queueDict := queueDict - {key};
          RemovedDropsKey(queueKeys, key);
          assert key !in queueKeys ==> SetOf(queueKeys) - {key} == SetOf(queueKeys);
          if key in queueKeys {
            var removed := Removed(queueKeys, key);
            assert forall k :: k in removed ==> k in SetOf(removed);
            queueKeys := removed;
          }
        }
      }
    }

    /** `load_domain_config`: entries without a window or hits are dropped. */
    method LoadDomainConfig(loaded: Option<Loaded>)
      modifies this`domainConfig, this`configFlag, this`blackDomains
      ensures domainConfig == if loaded.Some? && loaded.value.domains.Some? then Vetted(loaded.value.domains.value) else map[]
      ensures var raw := if loaded.Some? && loaded.value.domains.Some? then loaded.value.domains.value else map[];
              && (forall d :: d in domainConfig <==> d in raw && raw[d].window.Some? && raw[d].hits.Some?)
              && (forall d :: d in domainConfig ==>
                    RawConf(Some(domainConfig[d].window), Some(domainConfig[d].hits), domainConfig[d].scale) == raw[d])
      ensures blackDomains == if loaded.Some? && loaded.value.blacklist.Some? then loaded.value.blacklist.value else old(blackDomains)
      ensures configFlag
    {
      domainConfig := map[];
      if loaded.Some? {
        if loaded.value.domains.Some? {
          var raw := loaded.value.domains.value;
          var left := raw.Keys;
          while left != {}
            invariant left <= raw.Keys
            invariant domainConfig == Vetted(raw - left)
            invariant blackDomains == old(blackDomains)
            decreases left
          {
            var domain :| domain in left;
            left := left - {domain};
            var item := raw[domain];
            if item.window.Some? && item.hits.Some? {
              domainConfig := domainConfig[domain := DomainConf(item.window.value, item.hits.value, item.scale)];
            }
          }
          assert raw - {} == raw;
        }
        if loaded.value.blacklist.Some? {
          blackDomains := loaded.value.blacklist.value;
        }
      }
      configFlag := true;
    }

    /** `update_domain_queues`: cached queues of configured domains change in place. */
    method UpdateDomainQueues()
      requires Valid()
      modifies this`queueDict
      ensures Valid() && queueDict == Updated(settings, domainConfig, old(queueDict))
      ensures queueDict.Keys == old(queueDict).Keys
      ensures forall k :: k in queueDict ==>
                var (q, q') := (old(queueDict)[k], queueDict[k]);
                if k.spider == settings.spider && k.domain in domainConfig
                then q' == Cached(domainConfig[k.domain].window, EffectiveHits(domainConfig[k.domain]), q.moderation, q.lastUsed)
                else q' == q
    {
      var left := domainConfig.Keys;
      while left != {}
        invariant Valid() && left <= domainConfig.Keys
        invariant queueDict == Updated(settings, domainConfig - left, old(queueDict))
        decreases left
      {
        var domain :| domain in left;
        UpdatedOne(settings, domainConfig, old(queueDict), left, domain);
        left := left - {domain};
        UpdateQueue(domain);
      }
      assert domainConfig - {} == domainConfig;
    }

    /** The body of that loop: window and limit of one cached queue. */
    method UpdateQueue(domain: string)
      requires domain in domainConfig
      modifies this`queueDict
      ensures queueDict == Reconfigured(settings, domainConfig[domain], old(queueDict), domain)
    {
      var key := QueueKey(settings.spider, domain);
      if key in queueDict {
        var conf := domainConfig[domain];
        queueDict := queueDict[key := queueDict[key].(window := conf.window)];
        if conf.scale.Some? {
          ScaledWithin(conf.hits, FitScale(conf.scale.value));
          var hits := (conf.hits as real * FitScale(conf.scale.value)).Floor;
          assert hits == EffectiveHits(conf);
          queueDict := queueDict[key := queueDict[key].(limit := hits)];
        } else {
          queueDict := queueDict[key := queueDict[key].(limit := conf.hits)];
        }
      }
    }

    /**
     * `error_config`: back to the defaults.  The lookups do not check the cache, so
     * it only succeeds when every configured domain has a cached queue; otherwise
     * it stops at a missing one, some queues reverted, and the configuration stays.
     */
    method ErrorConfig() returns (ok: bool)
      requires Valid()
      modifies this`queueDict, this`domainConfig
      ensures Valid()
      ensures ok <==> forall d :: d in old(domainConfig) ==> QueueKey(settings.spider, d) in old(queueDict)
      ensures queueDict.Keys == old(queueDict).Keys
      ensures ok ==> domainConfig == map[] && queueDict == Reverted(settings, old(domainConfig), old(queueDict))
      ensures ok ==> forall k :: k in queueDict ==>
                var (q, q') := (old(queueDict)[k], queueDict[k]);
                if k.spider == settings.spider && k.domain in old(domainConfig)
                then q' == Cached(settings.window, settings.hits, q.moderation, q.lastUsed)
                else q' == q
      ensures !ok ==> domainConfig == old(domainConfig)
      ensures !ok ==> exists left :: queueDict == Reverted(settings, domainConfig - left, old(queueDict))
    {
      ok := true;
      var left := domainConfig.Keys;
      while left != {}
        invariant Valid() && left <= domainConfig.Keys && domainConfig == old(domainConfig)
        invariant forall d :: d in domainConfig && d !in left ==> QueueKey(settings.spider, d) in old(queueDict)
        invariant queueDict == Reverted(settings, domainConfig - left, old(queueDict))
        decreases left
      {
        var domain :| domain in left;
        var key := QueueKey(settings.spider, domain);
        if key !in queueDict {
          return false;
        }
        left := left - {domain};
        queueDict := queueDict[key := queueDict[key].(window := settings.window, limit := settings.hits)];
      }
      assert domainConfig - {} == domainConfig;
      domainConfig := map[];
    }

    /**
     * `change_config`.  A configuration is loaded, the cache updated in place and
     * the live queues rebuilt; a wiped one reverts to the defaults first.
     */
    method ChangeConfig(config: Option<Option<Loaded>>, now: real) returns (ok: bool)
      requires Valid()
      requires config.Some? && config.value.Some? && config.value.value.domains.Some?
               ==> Buildable(settings, Vetted(config.value.value.domains.value))
      modifies this`queueKeys, this`queueDict, this`configFlag, this`domainConfig, this`blackDomains
      ensures Valid()
      ensures ok <==> config.Some? || forall d :: d in old(domainConfig) ==> QueueKey(settings.spider, d) in old(queueDict)
      ensures ok ==> SetOf(queueKeys) == LiveQueues(store.scores.Keys, settings.spider)
      ensures ok && config.None? ==>
        && domainConfig == map[]
        && queueDict == AfterWipe(settings, old(domainConfig), old(queueDict), SetOf(queueKeys), old(configFlag), now)
      ensures config.Some? ==>
        && domainConfig == (if config.value.Some? && config.value.value.domains.Some?
                            then Vetted(config.value.value.domains.value) else map[])
        && blackDomains == (if config.value.Some? && config.value.value.blacklist.Some?
                            then config.value.value.blacklist.value else old(blackDomains))
        && queueDict == AfterChange(settings, domainConfig, old(queueDict), SetOf(queueKeys), now)
        && AllAsPrescribed(settings, domainConfig, queueDict, SetOf(queueKeys))
      ensures config.Some? ==>
        var raw := if config.value.Some? && config.value.value.domains.Some? then config.value.value.domains.value else map[];
        forall e :: e in store.scores && e.key.spider == settings.spider ==>
          e.key in queueDict && AsInFile(settings, raw, e.key, queueDict[e.key])
    {
      ok := true;
      if config.Some? {
        LoadDomainConfig(config.value);
        UpdateDomainQueues();
        ghost var live := LiveQueues(store.scores.Keys, settings.spider);
        ChangePrescribes(settings, domainConfig, old(queueDict), live, now);
      } else {
        ok := ErrorConfig();
      }
      if ok {
        CreateQueues(now);
      }
      if config.Some? {
        ghost var raw := if config.value.Some? && config.value.value.domains.Some? then config.value.value.domains.value else map[];
        assert domainConfig == Vetted(raw);
        forall e | e in store.scores && e.key.spider == settings.spider
          ensures e.key in queueDict && AsInFile(settings, raw, e.key, queueDict[e.key])
        {
          assert e.key in LiveQueues(store.scores.Keys, settings.spider);
          PrescribedIffAsInFile(settings, raw, e.key, queueDict[e.key]);
        }
      }
    }

    /** A request's fingerprint in the sets of this spider. */
    function MarkOf(r: Req): Mark {
      Mark(settings.spider, r.item.id.crawl, r.fingerprint)
    }

    /** A request's page counters among those of this spider. */
    function PagesKey(r: Req): PageKey {
      PageKey(settings.spider, r.domain, r.item.id.crawl)
    }

    /** Within both page limits. */
    predicate WithinLimits(r: Req)
      reads store
    {
      && PageAllowed(store.domainPages, PagesKey(r), r.maxPages)
      && PageAllowed(store.globalPages, PagesKey(r), settings.globalPageLimit)
    }

    /** Not of a stopped crawl, for a domain that is wanted, and in time. */
    predicate Welcome(r: Req, now: real)
      reads this, store`blacklist
    {
      && !Blacklisted(store.blacklist, settings.spider, r.item.id)
      && (settings.backlogBlacklist || r.domain !in blackDomains)
      && (r.item.expires == 0 || now < r.item.expires as real)
    }

    /** The entry in the books for a request that arrives here. */
    ghost function Enqueuing(r: Req, passesOthers: bool): Ledger.Operation {
      Ledger.Enqueue(id, Entry(QueueKey(r.spiderid, r.domain), r.item), MarkOf(r), r.dontFilter, passesOthers)
    }

    /**
     * `enqueue_request`.  An accepted request is stored in the same way whether its
     * queue is cached or not; any other leaves the queues alone.  The fingerprint
     * of a filtered request is recorded even when a later check turns it away: asked
     * again, the duplicate filter lets the request through only if it is not to be
     * filtered.
     */
    method EnqueueRequest(r: Req, now: real) returns (accepted: bool)
      requires Valid() && store.Agrees()
      modifies store`scores, store`seen, store`seenUntil, store`domainPages, store`globalPages, store`ledger
      ensures Valid() && store.Agrees()
      ensures store.ledger == Ledger.Perform(old(store.ledger), Enqueuing(r, old(WithinLimits(r) && Welcome(r, now))))
      ensures var mark := Mark(settings.spider, r.item.id.crawl, r.fingerprint);
              var key := PageKey(settings.spider, r.domain, r.item.id.crawl);
              accepted <==>
                && (r.dontFilter || mark !in old(store.seen))
                && (r.maxPages == 0 || PagesOf(old(store.domainPages), key) + 1 < r.maxPages)
                && (settings.globalPageLimit == 0
                    || PagesOf(old(store.globalPages), key) + 1 < settings.globalPageLimit)
                && !(settings.spider in store.blacklist
                     && r.item.id.app + "||" + r.item.id.crawl in store.blacklist[settings.spider])
                && (settings.backlogBlacklist || r.domain !in blackDomains)
                && (r.item.expires == 0 || now < r.item.expires as real)
      ensures store.ledger.accepted == old(store.ledger).accepted
                + if accepted then multiset{Entry(QueueKey(r.spiderid, r.domain), r.item)} else multiset{}
      ensures store.ledger.firsts == old(store.ledger).firsts
                + if accepted && !r.dontFilter then multiset{MarkOf(r)} else multiset{}
      ensures Unseen(store.seen, MarkOf(r), r) <==> r.dontFilter
      ensures store.scores == if accepted
                              then old(store.scores)[Entry(QueueKey(r.spiderid, r.domain), r.item) := -r.item.priority]
                              else old(store.scores)
      ensures store.seen == SeenAfter(old(store.seen), MarkOf(r), r)
      ensures store.seenUntil == SeenUntilAfter(old(store.seenUntil), MarkOf(r), r, now + settings.dupeTimeout)
      ensures var unseen := Unseen(old(store.seen), MarkOf(r), r);
              && store.domainPages == DomainPagesAfter(unseen, old(store.domainPages), PagesKey(r), r)
              && store.globalPages == GlobalPagesAfter(unseen, old(store.domainPages), old(store.globalPages),
                                                       PagesKey(r), r, settings.globalPageLimit)
    {
      accepted := false;
      ghost var op := Enqueuing(r, WithinLimits(r) && Welcome(r, now));
      var passed := PassFilters(r, now);
      if passed && !Blacklisted(store.blacklist, settings.spider, r.item.id) {
        if (settings.backlogBlacklist || (!settings.backlogBlacklist && r.domain !in blackDomains))
           && (r.item.expires == 0 || now < r.item.expires as real)
        {
          accepted := true;
          Put(QueueKey(r.spiderid, r.domain), r.item);
        }
      }
      assert accepted == Ledger.Accepted(old(store.seen), op);
      store.Record(op, old(store.scores.Keys), old(store.seen));
    }

    /** Through the queue's object if it is cached, straight into Redis if not. */
    method Put(key: QueueKey, item: Item)
      requires Valid()
      modifies store`scores
      ensures Valid() && store.scores == old(store.scores)[Entry(key, item) := -item.priority]
    {
      if key in queueKeys {
        Push(key, item);
      } else {
        store.ZAdd(key, item, -item.priority);
      }
    }

    /** The duplicate filter and the two page limits, in the order they are asked. */
    method PassFilters(r: Req, now: real) returns (passed: bool)
      requires Valid()
      modifies store`seen, store`seenUntil, store`domainPages, store`globalPages
      ensures Valid()
      ensures passed <==> Unseen(old(store.seen), MarkOf(r), r) && old(WithinLimits(r))
      ensures store.seen == old(store.seen) + if r.dontFilter then {} else {Mark(settings.spider, r.item.id.crawl, r.fingerprint)}
      ensures r.maxPages == 0 || (!r.dontFilter && MarkOf(r) in old(store.seen)) ==> store.domainPages == old(store.domainPages)
      ensures || settings.globalPageLimit == 0 || (!r.dontFilter && MarkOf(r) in old(store.seen))
              || (r.maxPages != 0 && r.maxPages <= PagesOf(old(store.domainPages), PagesKey(r)) + 1)
              ==> store.globalPages == old(store.globalPages)
      ensures store.seen == SeenAfter(old(store.seen), MarkOf(r), r)
      ensures store.seenUntil == SeenUntilAfter(old(store.seenUntil), MarkOf(r), r, now + settings.dupeTimeout)
      ensures var unseen := Unseen(old(store.seen), MarkOf(r), r);
              && store.domainPages == DomainPagesAfter(unseen, old(store.domainPages), PagesKey(r), r)
              && store.globalPages == GlobalPagesAfter(unseen, old(store.domainPages), old(store.globalPages),
                                                       PagesKey(r), r, settings.globalPageLimit)
    {
      passed := false;
      if !r.dontFilter {
        var seen := store.RequestSeen(MarkOf(r), now, settings.dupeTimeout);
        if seen { return; }
      }
      if r.maxPages != 0 {
        var reached := store.DomainLimitReached(PagesKey(r), r.maxPages);
        if reached { return; }
      }
      if settings.globalPageLimit != 0 {
        var reached := store.GlobalLimitReached(PagesKey(r), settings.globalPageLimit);
        if reached { return; }
      }
      passed := true;
    }

    /** The cached queue object's `push`; the lookup never misses. */
    method Push(key: QueueKey, item: Item)
      requires Valid() && key in queueDict
      modifies store`scores
      ensures Valid() && store.scores == old(store.scores)[Entry(key, item) := -item.priority]
    {
      store.ZAdd(key, item, -item.priority);
    }

    /** One pop of a cached queue: the throttle answers, and an allowed pop takes the best entry. */
    method PopQueue(key: QueueKey, allowed: bool) returns (entry: Option<Entry>)
      requires Valid() && store.Agrees() && key in queueDict
      modifies store`scores, store`ledger, this`pops
      ensures Valid() && store.Agrees() && pops == old(pops) + 1
      ensures store.ledger == Ledger.AfterFind(old(store.ledger), id, entry)
      ensures entry.Some? <==> allowed && QueueOf(old(store.scores), key) != {}
      ensures entry.None? ==> store.scores == old(store.scores)
      ensures entry.Some? ==> entry.value.key == key && BestTaken(entry.value, old(store.scores), store.scores)
    {
      pops := pops + 1;
      entry := None;
      if allowed {
        entry := store.PopMin(key, id);
      }
    }

    /**
     * `find_item`, for any shuffle and any answers of the throttles.  It makes at
     * most (item_retries + 1) * |queue_keys| pops, removes at most the one entry it
     * returns, the best of its queue, never one of a blacklisted domain, and comes
     * back empty-handed only if every queue that had something was refused in every
     * round; the queue that gives an item was let through by its throttle, after
     * those tried before it were refused.
     */
    method FindItem(shuffled: seq<QueueKey>, gate: (QueueKey, nat) -> bool, now: real) returns (found: Option<Entry>)
      requires Valid() && store.Agrees() && multiset(shuffled) == multiset(queueKeys)
      modifies this`queueKeys, this`queueDict, this`pops, store`scores, store`ledger
      ensures Valid() && store.Agrees() && queueKeys == shuffled
      ensures store.ledger == Ledger.AfterFind(old(store.ledger), id, found)
      ensures pops <= old(pops) + (settings.itemRetries + 1) * |shuffled|
      ensures found.None? ==> store.scores == old(store.scores) && queueDict == old(queueDict)
      ensures found.None? ==> AllRefusedIn(shuffled, blackDomains, store.scores, gate, settings.itemRetries + 1)
      ensures found.Some? ==>
                LetThrough(shuffled, blackDomains, old(store.scores), gate, settings.itemRetries + 1, found.value.key)
      ensures found.Some? ==>
                var e := found.value;
                && e in old(store.scores) && store.scores == old(store.scores) - {e}
                && (forall f :: f in old(store.scores) && f.key == e.key ==> f.item.priority <= e.item.priority)
                && e.key in old(queueKeys) && e.key.domain !in blackDomains
                && e.key in old(queueDict)
                && queueDict == old(queueDict)[e.key := old(queueDict)[e.key].(lastUsed := now)]
    {
      ShuffleKeepsKeys(queueKeys, shuffled);
      queueKeys := shuffled;
      found := FindInRounds(gate, now);
    }

    /** The rounds, over the keys as they are. */
    method FindInRounds(gate: (QueueKey, nat) -> bool, now: real) returns (found: Option<Entry>)
      requires Valid() && store.Agrees()
      modifies this`queueDict, this`pops, store`scores, store`ledger
      ensures Valid() && store.Agrees()
      ensures store.ledger == Ledger.AfterFind(old(store.ledger), id, found)
      ensures pops <= old(pops) + (settings.itemRetries + 1) * |queueKeys|
      ensures found.None? ==> store.scores == old(store.scores) && queueDict == old(queueDict)
      ensures found.None? ==> AllRefusedIn(queueKeys, blackDomains, store.scores, gate, settings.itemRetries + 1)
      ensures found.Some? ==>
                LetThrough(queueKeys, blackDomains, old(store.scores), gate, settings.itemRetries + 1, found.value.key)
      ensures found.Some? ==>
                var e := found.value;
                && BestTaken(e, old(store.scores), store.scores)
                && e.key in queueKeys && e.key.domain !in blackDomains
                && queueDict == Touched(old(queueDict), e.key, now)
    {
      var count := 0;
      found := None;
      while count <= settings.itemRetries
        invariant 0 <= count <= settings.itemRetries + 1
        invariant Valid() && store.Agrees() && queueDict == old(queueDict)
        invariant store.scores == old(store.scores) && store.ledger == old(store.ledger) && found.None?
        invariant pops <= old(pops) + Tries(count, |queueKeys|)
        invariant AllRefusedIn(queueKeys, blackDomains, store.scores, gate, count)
      {
        found := FindInRound(gate, count, now);
        TriesAreBounded(count + 1, settings.itemRetries + 1, |queueKeys|);
        if found.Some? {
          FoundInTime(queueKeys, blackDomains, old(store.scores), gate, settings.itemRetries + 1, count, found.value.key);
          return;
        }
        count := count + 1;
      }
      TriesAreBounded(count, settings.itemRetries + 1, |queueKeys|);
    }

    /** A queue that gave an item was used just now. */
    method Touch(key: QueueKey, now: real)
      requires Valid() && key in queueDict
      modifies this`queueDict
      ensures Valid() && queueDict == Touched(old(queueDict), key, now)
      ensures queueDict == old(queueDict)[key := old(queueDict)[key].(lastUsed := now)]
    {
      queueDict := queueDict[key := queueDict[key].(lastUsed := now)];
    }

    /** One pass over the keys. */
    method FindInRound(gate: (QueueKey, nat) -> bool, round: nat, now: real) returns (found: Option<Entry>)
      requires Valid() && store.Agrees()
      modifies this`queueDict, this`pops, store`scores, store`ledger
      ensures Valid() && store.Agrees() && pops <= old(pops) + |queueKeys|
      ensures store.ledger == Ledger.AfterFind(old(store.ledger), id, found)
      ensures found.None? ==> store.scores == old(store.scores) && queueDict == old(queueDict)
      ensures found.None? ==> AllRefused(queueKeys, blackDomains, store.scores, gate, round)
      ensures found.Some? ==> FirstLetThrough(queueKeys, blackDomains, old(store.scores), gate, round, found.value.key)
      ensures found.Some? ==>
                var e := found.value;
                && BestTaken(e, old(store.scores), store.scores)
                && e.key in queueKeys && e.key.domain !in blackDomains
                && queueDict == Touched(old(queueDict), e.key, now)
    {
      found := None;
      for i := 0 to |queueKeys|
        invariant Valid() && store.Agrees() && queueDict == old(queueDict) && found.None?
        invariant store.scores == old(store.scores) && store.ledger == old(store.ledger)
        invariant pops <= old(pops) + i
        invariant AllRefused(queueKeys[..i], blackDomains, store.scores, gate, round)
      {
        var key := queueKeys[i];
        if key.domain in blackDomains {
          RefusedOneMore(queueKeys, i, blackDomains, store.scores, gate, round);
          continue;
        }
        found := PopQueue(key, gate(key, round));
        if found.Some? {
          FoundFirst(queueKeys, i, blackDomains, old(store.scores), gate, round);
          Touch(key, now);
          return;
        }
        RefusedOneMore(queueKeys, i, blackDomains, store.scores, gate, round);
      }
      assert queueKeys[..|queueKeys|] == queueKeys;
    }
  }

  lemma RefusedOneMore(
      keys: seq<QueueKey>, i: nat, black: set<string>, scores: map<Entry, int>, gate: (QueueKey, nat) -> bool, round: nat)
    requires i < |keys| && AllRefused(keys[..i], black, scores, gate, round)
    requires keys[i].domain in black || !gate(keys[i], round) || QueueOf(scores, keys[i]) == {}
    ensures AllRefused(keys[..i + 1], black, scores, gate, round)
  {
    assert keys[..i + 1] == keys[..i] + [keys[i]];
    forall e | e in scores && e.key in keys[..i + 1] && e.key.domain !in black ensures !gate(e.key, round) {
      assert e in QueueOf(scores, e.key);
    }
  }

  lemma FoundFirst(
      keys: seq<QueueKey>, i: nat, black: set<string>, scores: map<Entry, int>, gate: (QueueKey, nat) -> bool, round: nat)
    requires i < |keys| && gate(keys[i], round) && AllRefused(keys[..i], black, scores, gate, round)
    ensures FirstLetThrough(keys, black, scores, gate, round, keys[i])
  {
  }

  lemma FoundInTime(
      keys: seq<QueueKey>, black: set<string>, scores: map<Entry, int>, gate: (QueueKey, nat) -> bool,
      rounds: nat, round: nat, key: QueueKey)
    requires round < rounds && FirstLetThrough(keys, black, scores, gate, round, key)
    requires AllRefusedIn(keys, black, scores, gate, round)
    ensures LetThrough(keys, black, scores, gate, rounds, key)
  {
  }

  /** That many rounds of n pops. */
  ghost function Tries(rounds: nat, n: nat): nat {
    if rounds == 0 then 0 else Tries(rounds - 1, n) + n
  }

  lemma {:induction false} TriesAreBounded(rounds: nat, most: nat, n: nat)
    requires rounds <= most
    ensures Tries(rounds, n) <= most * n
  {
    if rounds == 0 {
      assert 0 <= most * n;
    } else {
      TriesAreBounded(rounds - 1, most - 1, n);
      assert most * n == (most - 1) * n + n;
    }
  }

  lemma ShuffleKeepsKeys(keys: seq<QueueKey>, shuffled: seq<QueueKey>)
    requires DistinctKeys(keys) && multiset(shuffled) == multiset(keys)
    ensures DistinctKeys(shuffled) && forall k :: k in shuffled <==> k in keys
  {
    forall k ensures k in shuffled <==> k in keys {
      assert k in multiset(shuffled) <==> k in multiset(keys);
    }
    forall i, j | 0 <= i < j < |shuffled| ensures shuffled[i] != shuffled[j] {
      if shuffled[i] == shuffled[j] {
        TwiceCounts(shuffled, i, j);
        DistinctCounts(keys, shuffled[i]);
      }
    }
  }

  lemma TwiceCounts(keys: seq<QueueKey>, i: nat, j: nat)
    requires i < j < |keys| && keys[i] == keys[j]
    ensures multiset(keys)[keys[i]] >= 2
  {
    var a, b := keys[..j], keys[j..];
    assert keys == a + b;
    assert a[i] in a && b[0] in b;
  }

  lemma {:induction false} DistinctCounts(keys: seq<QueueKey>, key: QueueKey)
    requires DistinctKeys(keys)
    ensures multiset(keys)[key] <= 1
  {
    if keys == [] {
    } else {
      assert keys == [keys[0]] + keys[1..];
      DistinctCounts(keys[1..], key);
      assert keys[0] == key ==> key !in keys[1..];
    }
  }
}
