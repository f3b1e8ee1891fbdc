/**
 * The stop and expire monitors, run by one process with no crawler interfering:
 * blacklist the crawl, then purge its spider's queues three times.
 */
module PurgeMonitors {
  import opened Frontier
  import opened RedisStore
  import Ledger

  /** One more character in front: a colon begins a part, any other one joins the first. */
  function InFront(c: char, parts: seq<string>): (r: seq<string>)
    requires parts != []
    ensures r != []
  {
    if c == ':' then [""] + parts else [[c] + parts[0]] + parts[1..]
  }

  /** `key.split(":")`. */
  function Split(s: string): (parts: seq<string>)
    ensures parts != []
  {
    if s == "" then [""] else InFront(s[0], Split(s[1..]))
  }

  lemma InFrontOfBoth(c: char, a: seq<string>, b: seq<string>)
    requires a != []
    ensures InFront(c, a + b) == InFront(c, a) + b
  {
    if c == ':' {
      assert [""] + (a + b) == [""] + a + b;
    } else {
      assert (a + b)[1..] == a[1..] + b;
      assert [[c] + a[0]] + (a[1..] + b) == [[c] + a[0]] + a[1..] + b;
    }
  }

  /** A key of two halves splits into the parts of both. */
  lemma {:induction false} SplitHalves(x: string, y: string)
    ensures Split(x + ":" + y) == Split(x) + Split(y)
  {
    if x == "" {
      assert x + ":" + y == [':'] + y;
    } else {
      SplitHalves(x[1..], y);
      assert (x + ":" + y)[0] == x[0] && (x + ":" + y)[1..] == x[1..] + ":" + y;
      InFrontOfBoth(x[0], Split(x[1..]), Split(y));
    }
  }

  /** A name is its own first part exactly if it has no colon, and then its only one. */
  lemma {:induction false} PlainSplits(x: string)
    ensures ':' !in Split(x)[0]
    ensures ':' !in x <==> |Split(x)| == 1
    ensures ':' !in x <==> Split(x)[0] == x
  {
    if x == "" {
    } else {
      PlainSplits(x[1..]);
      assert x == [x[0]] + x[1..];
      if x[0] != ':' {
        assert Split(x)[0] == [x[0]] + Split(x[1..])[0];
        assert Split(x)[0][1..] == Split(x[1..])[0];
      }
    }
  }

  /** Neither the spider nor the application nor the crawl has a colon in its name. */
  predicate PlainNames(spider: string, id: CrawlId) {
    ':' !in spider && ':' !in id.app && ':' !in id.crawl
  }

  lemma KeySplits(head: string, spider: string, id: CrawlId)
    ensures Split(head + ":" + (spider + ":" + (id.app + ":" + id.crawl)))
            == Split(head) + (Split(spider) + (Split(id.app) + Split(id.crawl)))
  {
    SplitHalves(head, spider + ":" + (id.app + ":" + id.crawl));
    SplitHalves(spider, id.app + ":" + id.crawl);
    SplitHalves(id.app, id.crawl);
  }

  lemma PartsReadBack(spider: string, id: CrawlId)
    ensures var e := Split(spider) + (Split(id.app) + Split(id.crawl));
            && |e| >= 3 && (|e| == 3 <==> PlainNames(spider, id))
            && (e[0] == spider && e[1] == id.app && e[2] == id.crawl <==> PlainNames(spider, id))
  {
    PlainSplits(spider);
    PlainSplits(id.app);
    PlainSplits(id.crawl);
    var e := Split(spider) + (Split(id.app) + Split(id.crawl));
    assert e[0] == Split(spider)[0];
    if |Split(spider)| == 1 {
      assert e[1] == Split(id.app)[0];
      if |Split(id.app)| == 1 {
        assert e[2] == Split(id.crawl)[0];
      }
    }
  }

  /**
   * Main result: the expire monitor reads the crawl that a timeout key is about
   * from it exactly when no name has a colon; otherwise it blacklists and purges
   * another one.
   */
  lemma ExpiryFindsItsCrawlIffPlainNames(spider: string, id: CrawlId)
    ensures var e := Split(TimeoutKey(spider, id));
            |e| >= 4 && e[0] == "timeout" && (e[1] == spider && CrawlId(e[2], e[3]) == id <==> PlainNames(spider, id))
  {
    OnePart("timeout");
    KeySplits("timeout", spider, id);
    PartsReadBack(spider, id);
    var rest := Split(spider) + (Split(id.app) + Split(id.crawl));
    assert (["timeout"] + rest)[1..] == rest;
  }

  /** The stop monitor listens to a stop key, and reads the crawl from it, exactly when no name has a colon. */
  lemma StopIsHeardIffPlainNames(spider: string, id: CrawlId)
    ensures var e := Split(StopKey(spider, id));
            && (|e| == 4 <==> PlainNames(spider, id))
            && (|e| == 4 ==> e[0] == "stop" && e[1] == spider && CrawlId(e[2], e[3]) == id)
  {
    OnePart("stop");
    KeySplits("stop", spider, id);
    PartsReadBack(spider, id);
    var rest := Split(spider) + (Split(id.app) + Split(id.crawl));
    assert (["stop"] + rest)[1..] == rest;
  }

  lemma OnePart(x: string)
    requires ':' !in x
    ensures Split(x) == [x]
  {
    PlainSplits(x);
  }

  lemma FirstFour(w: string, x: string, y: string, z: string, rest: seq<string>)
    ensures [w, x, y, z] <= [w] + ([x] + ([y] + [z] + rest))
  {
  }

  /**
   * The end of any crawl of application `a:b` is taken for that of crawl `b` of
   * application `a`, which is stopped in its place.
   */
  lemma AnotherCrawlExpires(spider: string, a: string, b: string, crawl: string)
    requires ':' !in spider && ':' !in a && ':' !in b
    ensures ["timeout", spider, a, b] <= Split(TimeoutKey(spider, CrawlId(a + ":" + b, crawl)))
  {
    OnePart("timeout");
    OnePart(spider);
    OnePart(a);
    OnePart(b);
    KeySplits("timeout", spider, CrawlId(a + ":" + b, crawl));
    SplitHalves(a, b);
    FirstFour("timeout", spider, a, b, Split(crawl));
  }

  /** The entries of one crawl in the queues of one spider. */
  ghost function EntriesOf(entries: set<Entry>, spider: string, id: CrawlId): set<Entry> {
    set e | e in entries && e.key.spider == spider && e.item.id == id
  }

  /** Those of them in one queue. */
  ghost function EntriesIn(entries: set<Entry>, key: QueueKey, id: CrawlId): set<Entry> {
    set e | e in entries && e.key == key && e.item.id == id
  }

  /** Those of them that are not in these queues. */
  ghost function EntriesOutside(entries: set<Entry>, spider: string, id: CrawlId, keys: set<QueueKey>): set<Entry> {
    set e | e in EntriesOf(entries, spider, id) && e.key !in keys
  }

  /** The books after these stored entries were purged. */
  ghost function PurgedAll(s: Ledger.State, gone: set<Entry>): Ledger.State {
    s.(stored := s.stored - gone, purged := s.purged + multiset(gone))
  }

  /** From the first pair of stored scores and books to the second, exactly these entries were purged. */
  ghost predicate TakenOut(
      before: map<Entry, int>, books: Ledger.State, gone: set<Entry>, after: map<Entry, int>, books': Ledger.State)
  {
    after == before - gone && books' == PurgedAll(books, gone)
  }

  lemma NothingTakenOut(scores: map<Entry, int>, books: Ledger.State)
    ensures TakenOut(scores, books, {}, scores, books)
  {
    assert scores - {} == scores && books.stored - {} == books.stored;
    assert books.purged + multiset({}) == books.purged;
  }

  lemma OneTakenOut(before: map<Entry, int>, books: Ledger.State, e: Entry, after: map<Entry, int>, books': Ledger.State)
    requires e in books.stored && after == before - {e} && books' == Ledger.Perform(books, Ledger.Purge(e))
    ensures TakenOut(before, books, {e}, after, books')
  {
    assert multiset({e}) == multiset{e};
  }

  lemma MoreTakenOut(
      before: map<Entry, int>, books: Ledger.State, gone: set<Entry>, mid: map<Entry, int>, books': Ledger.State,
      more: set<Entry>, after: map<Entry, int>, books'': Ledger.State)
    requires TakenOut(before, books, gone, mid, books') && TakenOut(mid, books', more, after, books'') && gone !! more
    ensures TakenOut(before, books, gone + more, after, books'')
  {
    assert before - gone - more == before - (gone + more);
    assert books.stored - gone - more == books.stored - (gone + more);
    assert multiset(gone + more) == multiset(gone) + multiset(more);
    assert books.purged + multiset(gone) + multiset(more) == books.purged + (multiset(gone) + multiset(more));
  }

  /** Once an item is looked at, it counts among those done, if it is of the crawl. */
  lemma OneLessToDo(all: set<Entry>, items: set<Entry>, e: Entry)
    requires e in items
    ensures all - (items - {e}) == (all - items) + (if e in all then {e} else {})
    ensures |all - (items - {e})| == |all - items| + if e in all then 1 else 0
  {
    assert all - (items - {e}) == (all - items) + (if e in all then {e} else {});
  }

  /** Once a queue is purged, its entries of the crawl count among those done. */
  lemma OneQueueDone(entries: set<Entry>, spider: string, id: CrawlId, keys: set<QueueKey>, key: QueueKey)
    requires key.spider == spider && key in keys
    ensures var done := EntriesOutside(entries, spider, id, keys);
            && EntriesOutside(entries, spider, id, keys - {key}) == done + EntriesIn(entries - done, key, id)
            && done !! EntriesIn(entries - done, key, id)
  {
  }

  class StopMonitor {
    const store: Store

    constructor (store: Store)
      ensures this.store == store
    {
      this.store := store;
    }

    /** The body of the inner loop: one item is removed if it is of the crawl, after those that are gone already. */
    method PurgeItem(entry: Entry, id: CrawlId, ghost before: map<Entry, int>, ghost books: Ledger.State, ghost gone: set<Entry>)
      returns (purged: bool)
      requires store.Valid() && store.Agrees() && entry in store.scores && entry !in gone
      requires TakenOut(before, books, gone, store.scores, store.ledger)
      modifies store`scores, store`ledger
      ensures store.Valid() && store.Agrees() && (purged <==> entry.item.id == id)
      ensures TakenOut(before, books, gone + (if purged then {entry} else {}), store.scores, store.ledger)
    {
      purged := entry.item.id.app == id.app && entry.item.id.crawl == id.crawl;
      if purged {
        ghost var (mid, midBooks) := (store.scores, store.ledger);
        store.ZRem(entry);
        OneTakenOut(mid, midBooks, entry, store.scores, store.ledger);
        MoreTakenOut(before, books, gone, mid, midBooks, {entry}, store.scores, store.ledger);
      } else {
        assert gone + {} == gone;
      }
    }

    /** The inner loop: exactly the crawl's entries of one queue go. */
    method PurgeQueue(key: QueueKey, id: CrawlId) returns (purged: nat)
      requires store.Valid() && store.Agrees()
      modifies store`scores, store`ledger
      ensures store.Valid() && store.Agrees()
      ensures var gone := EntriesIn(old(store.scores).Keys, key, id);
              purged == |gone| && TakenOut(old(store.scores), old(store.ledger), gone, store.scores, store.ledger)
      ensures forall e :: e in store.scores <==> e in old(store.scores) && !(e.key == key && e.item.id == id)
    {
      purged := 0;
      ghost var all := EntriesIn(store.scores.Keys, key, id);
      NothingTakenOut(store.scores, store.ledger);
      var items := set e | e in store.scores && e.key == key;
      assert all - items == {};
      while items != {}
        invariant store.Valid() && store.Agrees()
        invariant items <= QueueOf(old(store.scores), key) && purged == |all - items|
        invariant TakenOut(old(store.scores), old(store.ledger), all - items, store.scores, store.ledger)
        decreases items
      {
        var entry :| entry in items;
        ghost var gone := all - items;
        OneLessToDo(all, items, entry);
        items := items - {entry};
        var hit := PurgeItem(entry, id, old(store.scores), old(store.ledger), gone);
        if hit {
          purged := purged + 1;
        }
      }
      assert all - {} == all;
    }

    /** One pass removes exactly the crawl's entries and counts them. */
    method MiniPurge(spider: string, id: CrawlId) returns (totalPurged: nat)
      requires store.Valid() && store.Agrees()
      modifies store`scores, store`ledger
      ensures store.Valid() && store.Agrees()
      ensures var gone := EntriesOf(old(store.scores).Keys, spider, id);
              totalPurged == |gone| && TakenOut(old(store.scores), old(store.ledger), gone, store.scores, store.ledger)
      ensures forall e :: e in store.scores <==> e in old(store.scores) && !(e.key.spider == spider && e.item.id == id)
    {
      totalPurged := 0;
      ghost var all := store.scores.Keys;
      ghost var gone: set<Entry> := {};
      NothingTakenOut(store.scores, store.ledger);
      var keys := set e | e in store.scores && e.key.spider == spider :: e.key;
      while keys != {}
        invariant store.Valid() && store.Agrees()
        invariant forall k :: k in keys ==> k.spider == spider
        invariant gone == EntriesOutside(all, spider, id, keys) && totalPurged == |gone|
        invariant TakenOut(old(store.scores), old(store.ledger), gone, store.scores, store.ledger)
        decreases keys
      {
        var key :| key in keys;
        ghost var (mid, books, more) := (store.scores, store.ledger, EntriesIn(store.scores.Keys, key, id));
        assert store.scores.Keys == all - gone;
        OneQueueDone(all, spider, id, keys, key);
        keys := keys - {key};
        var purged := PurgeQueue(key, id);
        MoreTakenOut(old(store.scores), old(store.ledger), gone, mid, books, more, store.scores, store.ledger);
        totalPurged := totalPurged + purged;
        gone := gone + more;
      }
      assert gone == EntriesOf(all, spider, id);
    }

    /** The second and third pass find nothing when nobody interferes. */
    method PurgeCrawl(spider: string, id: CrawlId) returns (total: nat)
      requires store.Valid() && store.Agrees()
      modifies store`scores, store`ledger
      ensures store.Valid() && store.Agrees()
      ensures var gone := EntriesOf(old(store.scores).Keys, spider, id);
              total == |gone| && TakenOut(old(store.scores), old(store.ledger), gone, store.scores, store.ledger)
      ensures forall e :: e in store.scores <==> e in old(store.scores) && !(e.key.spider == spider && e.item.id == id)
    {
      total := MiniPurge(spider, id);
      var again := PurgeNothing(spider, id);
      total := total + again;
      again := PurgeNothing(spider, id);
      total := total + again;
    }

    /** A pass over queues without the crawl's entries. */
    method PurgeNothing(spider: string, id: CrawlId) returns (none: nat)
      requires store.Valid() && store.Agrees() && EntriesOf(store.scores.Keys, spider, id) == {}
      modifies store`scores, store`ledger
      ensures store.Valid() && store.Agrees()
      ensures store.scores == old(store.scores) && store.ledger == old(store.ledger) && none == 0
    {
      NothingTakenOut(store.scores, store.ledger);
      none := MiniPurge(spider, id);
    }

    /** `StopMonitor.handle`: anything but `stop:spider:app:crawl` is ignored. */
    method HandleStop(key: string, acknowledged: bool) returns (totalPurged: nat)
      requires store.Valid() && store.Agrees()
      modifies store`scores, store`ledger, store`blacklist, store`timeouts
      ensures store.Valid() && store.Agrees()
      ensures var elements := Split(key);
        if |elements| != 4 then
          && store.scores == old(store.scores) && store.blacklist == old(store.blacklist)
          && store.timeouts == old(store.timeouts) && store.ledger == old(store.ledger) && totalPurged == 0
        else
          var (spider, id) := (elements[1], CrawlId(elements[2], elements[3]));
          var gone := EntriesOf(old(store.scores).Keys, spider, id);
          && totalPurged == |gone| && TakenOut(old(store.scores), old(store.ledger), gone, store.scores, store.ledger)
          && store.blacklist == WithBlacklisted(old(store.blacklist), spider, id)
          && (forall e :: e in store.scores <==> e in old(store.scores) && !(e.key.spider == spider && e.item.id == id))
          && store.timeouts == if acknowledged then old(store.timeouts) - {TimeoutKey(spider, id)} else old(store.timeouts)
    {
      totalPurged := 0;
      var elements := Split(key);
      if |elements| != 4 {
        return;
      }
      var spider, id := elements[1], CrawlId(elements[2], elements[3]);
      store.blacklist := WithBlacklisted(store.blacklist, spider, id);
      totalPurged := PurgeCrawl(spider, id);
      if acknowledged {
        store.timeouts := store.timeouts - {TimeoutKey(spider, id)};
      }
    }

    /**
     * `ExpireMonitor`, for a key that matches `timeout:*:*:*`: once its time is over,
     * the crawl that parts 1 to 3 of the key name is stopped the same way.
     */
    method HandleExpired(key: string, now: real) returns (handled: bool, totalExpired: nat)
      requires store.Valid() && store.Agrees() && key in store.timeouts && |Split(key)| >= 4
      modifies store`scores, store`ledger, store`blacklist
      ensures store.Valid() && store.Agrees()
      ensures handled <==> store.timeouts[key] < now
      ensures var (spider, id) := (Split(key)[1], CrawlId(Split(key)[2], Split(key)[3]));
              var gone := if handled then EntriesOf(old(store.scores).Keys, spider, id) else {};
              && totalExpired == |gone| && TakenOut(old(store.scores), old(store.ledger), gone, store.scores, store.ledger)
              && (forall e :: e in store.scores <==>
                    e in old(store.scores) && !(handled && e.key.spider == spider && e.item.id == id))
              && store.blacklist == if handled then WithBlacklisted(old(store.blacklist), spider, id) else old(store.blacklist)
    {
      NothingTakenOut(store.scores, store.ledger);
      handled, totalExpired := now > store.timeouts[key], 0;
      if handled {
        var elements := Split(key);
        var spider, id := elements[1], CrawlId(elements[2], elements[3]);
        store.blacklist := WithBlacklisted(store.blacklist, spider, id);
        totalExpired := PurgeCrawl(spider, id);
      }
    }
  }
}
