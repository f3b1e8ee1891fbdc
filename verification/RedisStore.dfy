/** The keys in Redis that crawlers, feeders and monitors share. */
module RedisStore {
  import opened Options
  import opened Frontier
  import Ledger
  import PageLimits

  type Pages = map<PageKey, nat>

  type Blacklist = map<string, set<string>>

  /** Whoever stores a request stores it under its negated priority. */
  ghost predicate StoredByPriority(scores: map<Entry, int>) {
    forall e :: e in scores ==> scores[e] == -e.item.priority
  }

  /** The entries of a queue. */
  ghost function QueueOf(scores: map<Entry, int>, key: QueueKey): set<Entry> {
    set e | e in scores && e.key == key
  }

  /** Exactly this entry is gone, the best one of its queue. */
  ghost predicate BestTaken(e: Entry, before: map<Entry, int>, after: map<Entry, int>) {
    && e in before && after == before - {e}
    && forall f :: f in before && f.key == e.key ==> f.item.priority <= e.item.priority
  }

  ghost predicate DistinctKeys(keys: seq<QueueKey>) {
    forall i, j :: 0 <= i < j < |keys| ==> keys[i] != keys[j]
  }

  ghost function SetOf(keys: seq<QueueKey>): set<QueueKey> {
    set k | k in keys
  }

  ghost function LiveQueues(entries: set<Entry>, spider: string): set<QueueKey> {
    set e | e in entries && e.key.spider == spider :: e.key
  }

  /** `SISMEMBER spider:blacklist app||crawl`. */
  predicate Blacklisted(blacklist: Blacklist, spider: string, id: CrawlId) {
    spider in blacklist && BlacklistKey(id) in blacklist[spider]
  }

  /** The blacklists after `SADD spider:blacklist app||crawl`. */
  function WithBlacklisted(blacklist: Blacklist, spider: string, id: CrawlId): Blacklist {
    blacklist[spider := (if spider in blacklist then blacklist[spider] else {}) + {BlacklistKey(id)}]
  }

  /** A stop adds one member to the blacklist of its spider, and every earlier stop is kept. */
  lemma StopAddsOneMember(blacklist: Blacklist, stopped: string, stop: CrawlId, spider: string, id: CrawlId)
    ensures Blacklisted(WithBlacklisted(blacklist, stopped, stop), spider, id) <==>
              || Blacklisted(blacklist, spider, id)
              || (spider == stopped && id.app + "||" + id.crawl == stop.app + "||" + stop.crawl)
    ensures !Blacklisted(map[], spider, id)
  {
  }

  /** The blacklists after some stops, each of a spider's crawl. */
  function BlacklistAfter(stops: seq<(string, CrawlId)>): Blacklist {
    if stops == [] then map[]
    else WithBlacklisted(BlacklistAfter(stops[..|stops| - 1]), stops[|stops| - 1].0, stops[|stops| - 1].1)
  }

  /** A crawl is turned away exactly if a crawl of its spider with the same application and name, joined, was stopped. */
  lemma {:induction false} BlacklistedIffStopped(stops: seq<(string, CrawlId)>, spider: string, id: CrawlId)
    ensures Blacklisted(BlacklistAfter(stops), spider, id) <==>
              exists i :: 0 <= i < |stops| && stops[i].0 == spider
                          && stops[i].1.app + "||" + stops[i].1.crawl == id.app + "||" + id.crawl
  {
    if stops == [] {
    } else {
      var n := |stops| - 1;
      BlacklistedIffStopped(stops[..n], spider, id);
      StopAddsOneMember(BlacklistAfter(stops[..n]), stops[n].0, stops[n].1, spider, id);
      assert stops == stops[..n] + [stops[n]];
    }
  }

  function PagesOf(pages: Pages, key: PageKey): nat {
    if key in pages then pages[key] else 0
  }

  /** The counters after a check: one more, up to the limit. */
  function Counted(pages: Pages, key: PageKey, limit: nat): Pages {
    var n := PagesOf(pages, key);
    pages[key := if limit <= n then n else n + 1]
  }

  /** Whether a page filter lets a request through; a limit of zero means no filter. */
  predicate PageAllowed(pages: Pages, key: PageKey, limit: nat) {
    limit == 0 || PagesOf(pages, key) + 1 < limit
  }

  /** The least score is the highest priority. */
  lemma FirstIsBest(scores: map<Entry, int>, e: Entry)
    requires StoredByPriority(scores) && e in scores
    requires forall f :: f in QueueOf(scores, e.key) ==> scores[e] <= scores[f]
    ensures BestTaken(e, scores, scores - {e}) && StoredByPriority(scores - {e})
  {
    forall f | f in scores && f.key == e.key ensures f.item.priority <= e.item.priority {
      assert f in QueueOf(scores, e.key);
    }
  }

  /** One scheduler at a time, the page filters do what their commands do one by one. */
  lemma FilterDoesItsCommands(pages: Pages, key: PageKey, limit: nat)
    requires limit != 0
    ensures var counter := PageLimits.Counter(if key in pages then Some(pages[key]) else None, []);
            var (after, verdict) := PageLimits.Alone(counter, limit, PageLimits.Exists);
            && (PageAllowed(pages, key, limit) <==> verdict.LetThrough?)
            && after.value == Some(Counted(pages, key, limit)[key])
  {
    PageLimits.AloneCounts(PageLimits.Counter(if key in pages then Some(pages[key]) else None, []), limit);
  }

  class Store {
    var scores: map<Entry, int>
    var blacklist: Blacklist
    var timeouts: map<string, real>
    var seen: set<Mark>
    /** When the marks of a spider's crawl are forgotten. */
    var seenUntil: map<(string, string), real>
    var domainPages: Pages
    var globalPages: Pages
    ghost var ledger: Ledger.State

    constructor ()
      ensures Valid() && Agrees() && ledger == Ledger.EMPTY
      ensures scores == map[] && blacklist == map[] && timeouts == map[]
      ensures seen == {} && seenUntil == map[] && domainPages == map[] && globalPages == map[]
    {
      scores, blacklist, timeouts := map[], map[], map[];
      seen, seenUntil, domainPages, globalPages := {}, map[], map[], map[];
      ledger := Ledger.EMPTY;
    }

    ghost predicate Valid()
      reads this`scores
    {
      StoredByPriority(scores)
    }

    /** The books show what is stored and seen, and they balance. */
    ghost predicate Agrees()
      reads this`scores, this`seen, this`ledger
    {
      Ledger.Agrees(ledger, scores.Keys, seen)
    }

    /** The books take note of an operation done on a store that held this. */
    ghost method Record(op: Ledger.Operation, held: set<Entry>, known: set<Mark>)
      requires Ledger.Agrees(ledger, held, known)
      requires scores.Keys == Ledger.StoredAfter(held, known, op)
      requires seen == Ledger.SeenAfter(known, op)
      modifies this`ledger
      ensures Agrees() && ledger == Ledger.Perform(old(ledger), op)
    {
      Ledger.PerformConserves(ledger, op);
      ledger := Ledger.Perform(ledger, op);
    }

    /** `ZADD key score member`. */
    method ZAdd(key: QueueKey, item: Item, score: int)
      requires Valid() && score == -item.priority
      modifies this`scores
      ensures Valid() && scores == old(scores)[Entry(key, item) := score]
    {
      scores := scores[Entry(key, item) := score];
    }

    /** `ZREM key member`, by a monitor. */
    method ZRem(entry: Entry)
      requires Valid() && Agrees()
      modifies this`scores, this`ledger
      ensures Valid() && Agrees() && scores == old(scores) - {entry}
      ensures ledger == Ledger.Perform(old(ledger), Ledger.Purge(entry))
    {
      scores := scores - {entry};
      Record(Ledger.Purge(entry), old(scores.Keys), seen);
    }

    /** `ZRANGE key 0 0`: some entry of least score. */
    method First(key: QueueKey) returns (entry: Option<Entry>)
      ensures entry.None? <==> QueueOf(scores, key) == {}
      ensures entry.Some? ==> entry.value in QueueOf(scores, key)
                              && forall e :: e in QueueOf(scores, key) ==> scores[entry.value] <= scores[e]
    {
      entry := None;
      var left := set e | e in scores && e.key == key;
      while left != {}
        invariant left <= QueueOf(scores, key)
        invariant entry.None? ==> left == QueueOf(scores, key)
        invariant entry.Some? ==> entry.value in QueueOf(scores, key) - left
        invariant entry.Some? ==> forall e :: e in QueueOf(scores, key) - left ==> scores[entry.value] <= scores[e]
        decreases left
      {
        var e :| e in left;
        left := left - {e};
        if entry.None? || scores[e] < scores[entry.value] {
          entry := Some(e);
        }
      }
    }

    /** Range-and-remove of the first rank, by a scheduler. */
    method PopMin(key: QueueKey, scheduler: nat) returns (entry: Option<Entry>)
      requires Valid() && Agrees()
      modifies this`scores, this`ledger
      ensures Valid() && Agrees()
      ensures entry.None? <==> QueueOf(old(scores), key) == {}
      ensures entry.None? ==> scores == old(scores)
      ensures entry.Some? ==> entry.value.key == key && BestTaken(entry.value, old(scores), scores)
      ensures ledger == Ledger.AfterFind(old(ledger), scheduler, entry)
      ensures ledger.returned == old(ledger).returned
                                 + if entry.Some? then [Ledger.Returned(scheduler, entry.value)] else []
    {
      entry := First(key);
      if entry.Some? {
        FirstIsBest(scores, entry.value);
        scores := scores - {entry.value};
        Record(Ledger.FindItem(scheduler, entry.value), old(scores.Keys), seen);
      }
    }

    /** `KEYS spider:*:queue`, in whatever order. */
    method LiveKeys(spider: string) returns (keys: seq<QueueKey>)
      ensures DistinctKeys(keys) && SetOf(keys) == LiveQueues(scores.Keys, spider)
    {
      keys := [];
      var left := set e | e in scores && e.key.spider == spider :: e.key;
      while left != {}
        invariant DistinctKeys(keys) && SetOf(keys) !! left
        invariant SetOf(keys) + left == LiveQueues(scores.Keys, spider)
        decreases left
      {
        var k :| k in left;
        left := left - {k};
        ghost var before := keys;
        keys := keys + [k];
        assert SetOf(keys) == SetOf(before) + {k};
      }
    }

    /** `RFPDupeFilter.request_seen`: a mark that is not there is new, and the crawl's marks live on from now. */
    method RequestSeen(mark: Mark, now: real, timeout: real) returns (answer: bool)
      modifies this`seen, this`seenUntil
      ensures answer <==> mark in old(seen)
      ensures seen == old(seen) + {mark}
      ensures seenUntil == old(seenUntil)[(mark.spider, mark.crawl) := now + timeout]
    {
      answer := mark in seen;
      seen := seen + {mark};
      seenUntil := seenUntil[(mark.spider, mark.crawl) := now + timeout];
    }

    /** Redis drops the marks of a crawl when their time has come. */
    method ForgetMarks(spider: string, crawl: string, now: real)
      requires Agrees() && (spider, crawl) in seenUntil && seenUntil[(spider, crawl)] <= now
      modifies this`seen, this`seenUntil, this`ledger
      ensures Agrees() && seenUntil == old(seenUntil) - {(spider, crawl)}
      ensures forall m :: m in seen <==> m in old(seen) && !(m.spider == spider && m.crawl == crawl)
      ensures ledger == Ledger.Perform(old(ledger), Ledger.Forget(spider, crawl))
      ensures ledger.forgets == old(ledger).forgets + multiset{(spider, crawl)}
    {
      ghost var known := seen;
      seen := Ledger.Remembered(seen, spider, crawl);
      seenUntil := seenUntil - {(spider, crawl)};
      Record(Ledger.Forget(spider, crawl), scores.Keys, known);
    }

    /** Both page filters, for one scheduler at a time; an absent counter starts at zero. */
    method DomainLimitReached(key: PageKey, limit: nat) returns (reached: bool)
      modifies this`domainPages
      ensures var count := if key in old(domainPages) then old(domainPages)[key] else 0;
              && (reached <==> limit <= count + 1)
              && domainPages == old(domainPages)[key := if limit <= count then count else count + 1]
    {
      if key !in domainPages {
        domainPages := domainPages[key := 0];
      }
      if domainPages[key] >= limit {
        return true;
      }
      domainPages := domainPages[key := domainPages[key] + 1];
      reached := domainPages[key] >= limit;
    }

    method GlobalLimitReached(key: PageKey, limit: nat) returns (reached: bool)
      modifies this`globalPages
      ensures var count := if key in old(globalPages) then old(globalPages)[key] else 0;
              && (reached <==> limit <= count + 1)
              && globalPages == old(globalPages)[key := if limit <= count then count else count + 1]
    {
      if key !in globalPages {
        globalPages := globalPages[key := 0];
      }
      if globalPages[key] >= limit {
        return true;
      }
      globalPages := globalPages[key := globalPages[key] + 1];
      reached := globalPages[key] >= limit;
    }
  }
}
