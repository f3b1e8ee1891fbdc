/** What the crawlers and the monitors share in Redis: the queues of waiting requests. */
module Frontier {

  datatype CrawlId = CrawlId(app: string, crawl: string)

  /** `spider:domain:queue`. */
  datatype QueueKey = QueueKey(spider: string, domain: string)

  /**
   * An encoded request, its fields at the top for a seed and in `meta` for any
   * other; `expires` is 0 for a crawl that never expires.
   */
  datatype Item = Item(id: CrawlId, priority: int, expires: int, body: string)

  datatype Entry = Entry(key: QueueKey, item: Item)

  /** The key that holds the time at which a crawl is over. */
  function TimeoutKey(spider: string, id: CrawlId): string {
    "timeout" + ":" + (spider + ":" + (id.app + ":" + id.crawl))
  }

  /** The key that asks for a crawl to be stopped. */
  function StopKey(spider: string, id: CrawlId): string {
    "stop" + ":" + (spider + ":" + (id.app + ":" + id.crawl))
  }

  /** A fingerprint in a crawl's set of the spider's duplicate filter. */
  datatype Mark = Mark(spider: string, crawl: string, fingerprint: string)

  /** A page counter of a spider's page filter. */
  datatype PageKey = PageKey(spider: string, domain: string, crawl: string)

  /** The member of a spider's blacklist that stands for a crawl. */
  function BlacklistKey(id: CrawlId): string {
    id.app + "||" + id.crawl
  }

  /** Some crawls of these applications are different and yet share a blacklist entry. */
  ghost predicate CanShareKey(a: string, b: string) {
    exists x, y :: CrawlId(a, x) != CrawlId(b, y) && BlacklistKey(CrawlId(a, x)) == BlacklistKey(CrawlId(b, y))
  }

  /**
   * Main result: two applications can have crawls that share an entry exactly when
   * one name with the separator after it begins the other: a condition to check
   * when an application is admitted.
   */
  lemma SharedKeyIffOneNameBeginsTheOther(a: string, b: string)
    ensures CanShareKey(a, b) <==> a != b && (a + "||" <= b + "||" || b + "||" <= a + "||")
  {
    if x, y :| CrawlId(a, x) != CrawlId(b, y) && BlacklistKey(CrawlId(a, x)) == BlacklistKey(CrawlId(b, y)) {
      SharedKeyComparesNames(a, x, b, y);
    }
    if a != b && a + "||" <= b + "||" {
      LongerNameCollides(a, b);
    } else if a != b && b + "||" <= a + "||" {
      LongerNameCollides(b, a);
    }
  }

  /** Two beginnings of one entry begin each other, and after equal names the crawls are equal. */
  lemma SharedKeyComparesNames(a: string, x: string, b: string, y: string)
    requires BlacklistKey(CrawlId(a, x)) == BlacklistKey(CrawlId(b, y))
    ensures a + "||" <= b + "||" || b + "||" <= a + "||"
    ensures a == b ==> x == y
  {
    var key, m, n := BlacklistKey(CrawlId(a, x)), |a + "||"|, |b + "||"|;
    assert key[..m] == a + "||" && key[m..] == x;
    assert key[..n] == b + "||" && key[n..] == y;
    if m <= n {
      assert key[..m] == key[..n][..m];
    } else {
      assert key[..n] == key[..m][..n];
    }
  }

  lemma LongerNameCollides(a: string, b: string)
    requires a != b && a + "||" <= b + "||"
    ensures CanShareKey(a, b) && CanShareKey(b, a)
  {
    var x := (b + "||")[|a + "||"|..];
    assert BlacklistKey(CrawlId(a, x)) == b + "||" == BlacklistKey(CrawlId(b, ""));
    assert CrawlId(a, x) != CrawlId(b, "");
  }

  lemma LongerNameHasBar(a: string, b: string)
    requires a + "||" <= b + "||"
    ensures a == b || '|' in b
  {
    if |a| < |b| {
      assert b[|a|] == (b + "||")[|a|] == (a + "||")[|a|] == '|';
    } else {
      assert a == (a + "||")[..|a|] == (b + "||")[..|a|] == b;
    }
  }

  /** So names without a bar never do. */
  lemma PlainNamesNeverShare(a: CrawlId, b: CrawlId)
    requires '|' !in a.app && '|' !in b.app
    ensures BlacklistKey(a) == BlacklistKey(b) <==> a == b
  {
    if BlacklistKey(a) == BlacklistKey(b) {
      SharedKeyComparesNames(a.app, a.crawl, b.app, b.crawl);
      if a.app + "||" <= b.app + "||" {
        LongerNameHasBar(a.app, b.app);
      } else {
        LongerNameHasBar(b.app, a.app);
      }
    }
  }

  /** With a bar they can: stopping one of these crawls stops the other. */
  lemma BlacklistKeyCollides()
    ensures var a, b := CrawlId("x", "y||z"), CrawlId("x||y", "z");
            a != b && BlacklistKey(a) == BlacklistKey(b)
  {
    assert "x" + "||" + "y||z" == "x||y" + "||" + "z";
  }
}
