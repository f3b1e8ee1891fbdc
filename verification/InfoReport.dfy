/** The info monitor's reports on the requests waiting for an application or a crawl. */
module InfoReport {
  import opened Options
  import opened Frontier
  import opened IntSets

  datatype DomainInfo = DomainInfo(total: nat, high: int, low: int)

  datatype CrawlInfo = CrawlInfo(total: nat, domains: map<string, DomainInfo>, distinctDomains: nat, expires: Option<int>)

  /** `domainDict` is the dictionary beside the report whose size becomes `totalDomains` at the end. */
  datatype AppReport = AppReport(
    totalPending: nat, totalCrawlids: nat, totalDomains: nat, crawlids: map<string, CrawlInfo>, domainDict: set<string>)

  const HIGH_START := -9999
  const LOW_START := 9999

  // -------------------------------------------------- what the reports should say

  ghost function Domains(entries: set<Entry>): set<string> {
    set e | e in entries :: e.key.domain
  }

  ghost function Crawls(entries: set<Entry>): set<string> {
    set e | e in entries :: e.item.id.crawl
  }

  ghost function InDomain(entries: set<Entry>, domain: string): set<Entry> {
    set e | e in entries && e.key.domain == domain
  }

  ghost function InCrawl(entries: set<Entry>, crawl: string): set<Entry> {
    set e | e in entries && e.item.id.crawl == crawl
  }

  /** The count, and the extremes of the priorities and the starting values. */
  ghost predicate DescribesDomain(info: DomainInfo, entries: set<Entry>) {
    && info.total == |entries|
    && HIGH_START <= info.high && info.low <= LOW_START
    && (forall e :: e in entries ==> info.low <= e.item.priority <= info.high)
    && (info.high == HIGH_START || exists e :: e in entries && e.item.priority == info.high)
    && (info.low == LOW_START || exists e :: e in entries && e.item.priority == info.low)
  }

  /** Some entry of the crawl has this expiry; none is shown only if some entry never expires. */
  ghost predicate DescribesExpiry(expires: Option<int>, entries: set<Entry>) {
    match expires
    case Some(x) => x != 0 && exists e :: e in entries && e.item.expires == x
    case None => entries == {} || exists e :: e in entries && e.item.expires == 0
  }

  ghost predicate DescribesCrawl(info: CrawlInfo, entries: set<Entry>) {
    && info.total == |entries|
    && info.domains.Keys == Domains(entries)
    && info.distinctDomains == |info.domains|
    && (forall d :: d in info.domains ==> DescribesDomain(info.domains[d], InDomain(entries, d)))
  }

  ghost predicate DescribesCrawlInApp(info: CrawlInfo, entries: set<Entry>) {
    DescribesCrawl(info, entries) && DescribesExpiry(info.expires, entries)
  }

  ghost predicate DescribesApp(report: AppReport, entries: set<Entry>) {
    && report.totalPending == |entries|
    && report.crawlids.Keys == Crawls(entries)
    && report.totalCrawlids == |report.crawlids|
    && report.domainDict == Domains(entries)
    && (forall c :: c in report.crawlids ==> DescribesCrawlInApp(report.crawlids[c], InCrawl(entries, c)))
  }

  // ------------------------------------------------------------- one more item

  const NEW_DOMAIN := DomainInfo(0, HIGH_START, LOW_START)

  function CountInDomain(info: DomainInfo, priority: int): DomainInfo {
    DomainInfo(info.total + 1,
               if priority > info.high then priority else info.high,
               if priority < info.low then priority else info.low)
  }

  function CountInCrawl(info: CrawlInfo, domain: string, priority: int): CrawlInfo {
    var isNew := domain !in info.domains;
    var before := if isNew then NEW_DOMAIN else info.domains[domain];
    info.(total := info.total + 1,
          domains := info.domains[domain := CountInDomain(before, priority)],
          distinctDomains := info.distinctDomains + if isNew then 1 else 0)
  }

  function NewCrawl(expires: int): CrawlInfo {
    CrawlInfo(0, map[], 0, if expires != 0 then Some(expires) else None)
  }

  function CountInApp(report: AppReport, domain: string, item: Item): AppReport {
    var crawl := item.id.crawl;
    var isNew := crawl !in report.crawlids;
    var info := if isNew then NewCrawl(item.expires) else report.crawlids[crawl];
    report.(totalPending := report.totalPending + 1,
            totalCrawlids := report.totalCrawlids + (if isNew then 1 else 0),
            domainDict := report.domainDict + {domain},
            crawlids := report.crawlids[crawl := CountInCrawl(info, domain, item.priority)])
  }

  lemma OneMore(entries: set<Entry>, e: Entry)
    requires e !in entries
    ensures |entries + {e}| == |entries| + 1
    ensures Domains(entries + {e}) == Domains(entries) + {e.key.domain}
    ensures Crawls(entries + {e}) == Crawls(entries) + {e.item.id.crawl}
  {
  }

  lemma OneMoreInDomain(entries: set<Entry>, e: Entry, domain: string)
    ensures InDomain(entries + {e}, domain) == InDomain(entries, domain) + if domain == e.key.domain then {e} else {}
  {
  }

  lemma OneMoreInCrawl(entries: set<Entry>, e: Entry, crawl: string)
    ensures InCrawl(entries + {e}, crawl) == InCrawl(entries, crawl) + if crawl == e.item.id.crawl then {e} else {}
  {
  }

  lemma MapGrows<T>(m: map<string, T>, k: string, v: T)
    ensures |m[k := v]| == |m| + if k in m then 0 else 1
    ensures m[k := v].Keys == m.Keys + {k}
  {
    assert m[k := v].Keys == m.Keys + {k};
    assert k in m ==> m.Keys + {k} == m.Keys;
    assert |m[k := v]| == |m[k := v].Keys| && |m| == |m.Keys|;
  }

  lemma DomainCounts(info: DomainInfo, entries: set<Entry>, e: Entry)
    requires DescribesDomain(info, entries) && e !in entries
    ensures DescribesDomain(CountInDomain(info, e.item.priority), entries + {e})
  {
    var info' := CountInDomain(info, e.item.priority);
    assert e in entries + {e};
    if info'.high == info.high && info.high != HIGH_START {
      var f :| f in entries && f.item.priority == info.high;
      assert f in entries + {e};
    }
    if info'.low == info.low && info.low != LOW_START {
      var f :| f in entries && f.item.priority == info.low;
      assert f in entries + {e};
    }
  }

  /** The domain of the new entry is counted, and every other domain's entries are the same. */
  lemma DomainOfCrawlCounts(info: CrawlInfo, entries: set<Entry>, e: Entry, d: string)
    requires DescribesCrawl(info, entries) && e !in entries
    requires d in info.domains || d == e.key.domain
    ensures DescribesDomain(CountInCrawl(info, e.key.domain, e.item.priority).domains[d], InDomain(entries + {e}, d))
  {
    OneMoreInDomain(entries, e, d);
    if d != e.key.domain {
      assert InDomain(entries, d) + {} == InDomain(entries, d);
    } else if d in info.domains {
      DomainCounts(info.domains[d], InDomain(entries, d), e);
    } else {
      assert d !in Domains(entries);
      assert InDomain(entries, d) == {};
      DomainCounts(NEW_DOMAIN, {}, e);
    }
  }

  lemma CrawlCounts(info: CrawlInfo, entries: set<Entry>, e: Entry)
    requires DescribesCrawl(info, entries) && e !in entries
    ensures DescribesCrawl(CountInCrawl(info, e.key.domain, e.item.priority), entries + {e})
  {
    var info' := CountInCrawl(info, e.key.domain, e.item.priority);
    OneMore(entries, e);
    MapGrows(info.domains, e.key.domain, info'.domains[e.key.domain]);
    forall d | d in info'.domains ensures DescribesDomain(info'.domains[d], InDomain(entries + {e}, d)) {
      DomainOfCrawlCounts(info, entries, e, d);
    }
  }

  lemma CrawlInAppCounts(info: CrawlInfo, entries: set<Entry>, e: Entry)
    requires DescribesCrawlInApp(info, entries) && entries != {} && e !in entries
    ensures DescribesCrawlInApp(CountInCrawl(info, e.key.domain, e.item.priority), entries + {e})
  {
    CrawlCounts(info, entries, e);
    ExpiryStays(info.expires, entries, e);
  }

  lemma NewCrawlInAppCounts(e: Entry)
    ensures DescribesCrawlInApp(CountInCrawl(NewCrawl(e.item.expires), e.key.domain, e.item.priority), {e})
  {
    CrawlCounts(NewCrawl(e.item.expires), {}, e);
    assert {} + {e} == {e};
  }

  lemma CrawlOfAppCounts(report: AppReport, entries: set<Entry>, e: Entry, c: string)
    requires report.crawlids.Keys == Crawls(entries) && e !in entries
    requires c in report.crawlids ==> DescribesCrawlInApp(report.crawlids[c], InCrawl(entries, c))
    requires c in report.crawlids || c == e.item.id.crawl
    ensures DescribesCrawlInApp(CountInApp(report, e.key.domain, e.item).crawlids[c], InCrawl(entries + {e}, c))
  {
    OneMoreInCrawl(entries, e, c);
    if c != e.item.id.crawl {
      assert InCrawl(entries, c) + {} == InCrawl(entries, c);
    } else if c in report.crawlids {
      SomeInCrawl(entries, c);
      CrawlInAppCounts(report.crawlids[c], InCrawl(entries, c), e);
    } else {
      assert forall f :: f in InCrawl(entries, c) ==> f.item.id.crawl in Crawls(entries);
      assert InCrawl(entries, c) == {};
      assert {} + {e} == {e};
      NewCrawlInAppCounts(e);
    }
  }

  lemma SomeInCrawl(entries: set<Entry>, c: string)
    requires c in Crawls(entries)
    ensures InCrawl(entries, c) != {}
  {
    var e :| e in entries && e.item.id.crawl == c;
    assert e in InCrawl(entries, c);
  }

  lemma AppCounts(report: AppReport, entries: set<Entry>, e: Entry)
    requires DescribesApp(report, entries) && e !in entries
    ensures DescribesApp(CountInApp(report, e.key.domain, e.item), entries + {e})
  {
    var report' := CountInApp(report, e.key.domain, e.item);
    var c := e.item.id.crawl;
    OneMore(entries, e);
    MapGrows(report.crawlids, c, report'.crawlids[c]);
    forall c | c in report'.crawlids
      ensures DescribesCrawlInApp(report'.crawlids[c], InCrawl(entries + {e}, c))
    {
      CrawlOfAppCounts(report, entries, e, c);
    }
  }

  lemma ExpiryStays(expires: Option<int>, entries: set<Entry>, e: Entry)
    requires DescribesExpiry(expires, entries) && entries != {}
    ensures DescribesExpiry(expires, entries + {e})
  {
    match expires
    case Some(x) =>
      var f :| f in entries && f.item.expires == x;
      assert f in entries + {e};
    case None =>
      var f :| f in entries && f.item.expires == 0;
      assert f in entries + {e};
  }

  // ------------------------------------------------------------------ the loops

  /** Bins hold each item of the queue once, under its negated score. */
  ghost predicate Bins(bins: map<int, seq<Item>>, scores: map<Entry, int>, key: QueueKey, items: set<Item>) {
    && (forall s, i :: s in bins && i in bins[s] ==> i in items && Entry(key, i) in scores && -scores[Entry(key, i)] == s)
    && (forall i :: i in items ==> Entry(key, i) in scores && -scores[Entry(key, i)] in bins && i in bins[-scores[Entry(key, i)]])
    && (forall s :: s in bins ==> DistinctItems(bins[s]))
  }

  ghost predicate DistinctItems(items: seq<Item>) {
    forall i, j :: 0 <= i < j < |items| ==> items[i] != items[j]
  }

  /** One more item of the queue goes to the end of its bin. */
  lemma BinGrows(bins: map<int, seq<Item>>, scores: map<Entry, int>, key: QueueKey, items: set<Item>, item: Item)
    requires Bins(bins, scores, key, items) && item !in items && Entry(key, item) in scores
    ensures var score := -scores[Entry(key, item)];
            var bin := if score in bins then bins[score] else [];
            Bins(bins[score := bin + [item]], scores, key, items + {item})
  {
    var score := -scores[Entry(key, item)];
    assert score in bins ==> item !in bins[score];
  }

  ghost function ItemsOf(scores: map<Entry, int>, key: QueueKey): set<Item> {
    set e | e in scores && e.key == key :: e.item
  }

  /** The body of the loop over a queue's items. */
  method AddToBin(bins: map<int, seq<Item>>, scores: map<Entry, int>, key: QueueKey, item: Item, ghost items: set<Item>)
    returns (bins': map<int, seq<Item>>)
    requires Bins(bins, scores, key, items) && item !in items && Entry(key, item) in scores
    ensures Bins(bins', scores, key, items + {item})
  {
    BinGrows(bins, scores, key, items, item);
    var score := -scores[Entry(key, item)];
    bins' := bins;
    if score !in bins' {
      bins' := bins'[score := []];
    }
    bins' := bins'[score := bins'[score] + [item]];
    assert bins' == bins[score := (if score in bins then bins[score] else []) + [item]];
  }

  /** `_get_bin`: the queue's items by score, in any order. */
  method GetBin(scores: map<Entry, int>, key: QueueKey) returns (bins: map<int, seq<Item>>)
    ensures Bins(bins, scores, key, ItemsOf(scores, key))
  {
    bins := map[];
    ghost var all := ItemsOf(scores, key);
    var left := set e | e in scores && e.key == key :: e.item;
    while left != {}
      invariant left <= all
      invariant Bins(bins, scores, key, all - left)
      decreases left
    {
      var item :| item in left;
      assert all - (left - {item}) == (all - left) + {item};
      bins := AddToBin(bins, scores, key, item, all - left);
      left := left - {item};
    }
    assert all - {} == all;
  }

  /** The entries of an application in the queues of a spider. */
  ghost function AppEntries(scores: map<Entry, int>, spider: string, app: string): set<Entry> {
    set e | e in scores && e.key.spider == spider && e.item.id.app == app
  }

  ghost function ItemSet(items: seq<Item>): set<Item> {
    set i | i in items
  }

  /** The entries these items stand for in a queue, of one application. */
  ghost function OfApp(key: QueueKey, items: set<Item>, app: string): set<Entry> {
    set i | i in items && i.id.app == app :: Entry(key, i)
  }

  ghost predicate DistinctEntries(order: seq<Entry>) {
    forall i, j :: 0 <= i < j < |order| ==> order[i] != order[j]
  }

  ghost function EntrySet(order: seq<Entry>): set<Entry> {
    set e | e in order
  }

  const NO_APP := AppReport(0, 0, 0, map[], {})

  /** The report after counting these entries one by one. */
  function AppTally(order: seq<Entry>): AppReport {
    if order == [] then NO_APP
    else
      var e := order[|order| - 1];
      CountInApp(AppTally(order[..|order| - 1]), e.key.domain, e.item)
  }

  /** The order without its last entry. */
  lemma LastApart(order: seq<Entry>)
    requires order != [] && DistinctEntries(order)
    ensures var (before, e) := (order[..|order| - 1], order[|order| - 1]);
            DistinctEntries(before) && e !in EntrySet(before) && EntrySet(order) == EntrySet(before) + {e}
  {
    assert order == order[..|order| - 1] + [order[|order| - 1]];
  }

  lemma {:induction false} AppTallyDescribes(order: seq<Entry>)
    requires DistinctEntries(order)
    ensures DescribesApp(AppTally(order), EntrySet(order))
    decreases |order|
  {
    if order == [] {
    } else {
      var n := |order| - 1;
      LastApart(order);
      AppTallyDescribes(order[..n]);
      AppCounts(AppTally(order[..n]), EntrySet(order[..n]), order[n]);
    }
  }

  /** One more entry at the end of the order. */
  lemma Appended(order: seq<Entry>, e: Entry)
    requires DistinctEntries(order) && e !in order
    ensures DistinctEntries(order + [e]) && EntrySet(order + [e]) == EntrySet(order) + {e}
    ensures (order + [e])[..|order + [e]| - 1] == order
  {
  }

  lemma PrefixItems(items: seq<Item>, j: nat)
    requires DistinctItems(items) && j < |items|
    ensures ItemSet(items[..j + 1]) == ItemSet(items[..j]) + {items[j]} && items[j] !in items[..j]
  {
    assert items[..j + 1] == items[..j] + [items[j]];
  }

  /** One more item: its entry, if it is of the application, is the one that is new. */
  lemma OfAppMore(key: QueueKey, items: set<Item>, item: Item, app: string)
    ensures OfApp(key, items + {item}, app) == OfApp(key, items, app) + if item.id.app == app then {Entry(key, item)} else {}
  {
  }

  /** The entries counted of a queue stay those of the items seen. */
  lemma SeenOneMore(order: seq<Entry>, order': seq<Entry>, key: QueueKey, seen: set<Item>, item: Item)
    requires OtherQueues(order, key, seen) && (order' == order || order' == order + [Entry(key, item)])
    ensures OtherQueues(order', key, seen + {item})
  {
  }

  /** One more bin. */
  lemma BinnedMore(bins: map<int, seq<Item>>, scores: set<int>, score: int)
    requires score in bins
    ensures BinnedIn(bins, scores + {score}) == BinnedIn(bins, scores) + ItemSet(bins[score])
  {
  }

  /** An item of a bin is in no other bin. */
  lemma BinsApart(bins: map<int, seq<Item>>, scores: map<Entry, int>, key: QueueKey, done: set<int>, score: int)
    requires Bins(bins, scores, key, ItemsOf(scores, key)) && score in bins && score !in done
    ensures forall i :: i in bins[score] ==> i !in BinnedIn(bins, done)
  {
    forall i | i in bins[score] ensures i !in BinnedIn(bins, done) {
      assert forall s :: s in done && s in bins && i in bins[s] ==> s == -scores[Entry(key, i)] == score;
    }
  }

  /** The items of the bins with these scores. */
  ghost function BinnedIn(bins: map<int, seq<Item>>, scores: set<int>): set<Item> {
    set s, i | s in scores && s in bins && i in bins[s] :: i
  }

  lemma BinsCoverQueue(bins: map<int, seq<Item>>, scores: map<Entry, int>, key: QueueKey)
    requires Bins(bins, scores, key, ItemsOf(scores, key))
    ensures BinnedIn(bins, bins.Keys) == ItemsOf(scores, key)
  {
  }

  ghost predicate OtherQueues(order: seq<Entry>, key: QueueKey, done: set<Item>) {
    forall e :: e in order && e.key == key ==> e.item in done
  }

  /** The items of one bin: those of the application are counted. */
  method CountBin(report: AppReport, items: seq<Item>, key: QueueKey, app: string, ghost order: seq<Entry>, ghost before: set<Item>)
    returns (report': AppReport, ghost order': seq<Entry>)
    requires report == AppTally(order) && DistinctEntries(order) && DistinctItems(items)
    requires OtherQueues(order, key, before) && forall i :: i in items ==> i !in before
    ensures report' == AppTally(order') && DistinctEntries(order')
    ensures EntrySet(order') == EntrySet(order) + OfApp(key, ItemSet(items), app)
    ensures OtherQueues(order', key, before + ItemSet(items))
  {
    report', order' := report, order;
    for j := 0 to |items|
      invariant report' == AppTally(order') && DistinctEntries(order')
      invariant EntrySet(order') == EntrySet(order) + OfApp(key, ItemSet(items[..j]), app)
      invariant OtherQueues(order', key, before + ItemSet(items[..j]))
    {
      var item := items[j];
      PrefixItems(items, j);
      OfAppMore(key, ItemSet(items[..j]), item, app);
      ghost var (was, seen) := (order', before + ItemSet(items[..j]));
      if item.id.app == app {
        Appended(order', Entry(key, item));
        report' := CountInApp(report', key.domain, item);
        order' := order' + [Entry(key, item)];
      }
      SeenOneMore(was, order', key, seen, item);
      assert before + ItemSet(items[..j + 1]) == seen + {item};
    }
    assert items[..|items|] == items;
  }

  /** All bins of a queue. */
  method CountBins(report: AppReport, bins: map<int, seq<Item>>, scores: map<Entry, int>, key: QueueKey, app: string,
                   ghost order: seq<Entry>)
    returns (report': AppReport, ghost order': seq<Entry>)
    requires Bins(bins, scores, key, ItemsOf(scores, key))
    requires report == AppTally(order) && DistinctEntries(order) && OtherQueues(order, key, {})
    ensures report' == AppTally(order') && DistinctEntries(order')
    ensures EntrySet(order') == EntrySet(order) + OfApp(key, ItemsOf(scores, key), app)
  {
    report', order' := report, order;
    var left := bins.Keys;
    while left != {}
      invariant left <= bins.Keys
      invariant report' == AppTally(order') && DistinctEntries(order')
      invariant EntrySet(order') == EntrySet(order) + OfApp(key, BinnedIn(bins, bins.Keys - left), app)
      invariant OtherQueues(order', key, BinnedIn(bins, bins.Keys - left))
      decreases left
    {
      SomeMember(left);
      var score :| score in left;
      ghost var done := bins.Keys - left;
      left := left - {score};
      assert bins.Keys - left == done + {score};
      BinsApart(bins, scores, key, done, score);
      BinnedMore(bins, done, score);
      report', order' := CountBin(report', bins[score], key, app, order', BinnedIn(bins, done));
    }
    BinsCoverQueue(bins, scores, key);
  }

  /**
   * `_build_appid_info`: whatever the order of queues, bins and items, the report
   * describes exactly the waiting requests of the application.
   */
  method BuildAppidInfo(scores: map<Entry, int>, spider: string, app: string) returns (report: AppReport)
    ensures DescribesApp(report, set e | e in scores && e.key.spider == spider && e.item.id.app == app)
    ensures report.totalDomains == |Domains(AppEntries(scores, spider, app))|
  {
    report := NO_APP;
    ghost var order: seq<Entry> := [];
    var keys := set e | e in scores && e.key.spider == spider :: e.key;
    while keys != {}
      invariant forall k :: k in keys ==> k.spider == spider
      invariant report == AppTally(order) && DistinctEntries(order)
      invariant EntrySet(order) == set e | e in AppEntries(scores, spider, app) && e.key !in keys
      decreases keys
    {
      var key :| key in keys;
      keys := keys - {key};
      var bins := GetBin(scores, key);
      assert forall e :: e in order <==> e in EntrySet(order);
      report, order := CountBins(report, bins, scores, key, app, order);
    }
    assert EntrySet(order) == AppEntries(scores, spider, app);
    AppTallyDescribes(order);
    TotalDomainsApart(report, EntrySet(order));
    report := report.(totalDomains := |report.domainDict|);
  }

  /** The last field is not described by the others. */
  lemma TotalDomainsApart(report: AppReport, entries: set<Entry>)
    requires DescribesApp(report, entries)
    ensures DescribesApp(report.(totalDomains := |report.domainDict|), entries)
    ensures report.domainDict == Domains(entries)
  {
  }

  // ------------------------------------------------------------- one crawl

  datatype CrawlReport = CrawlReport(totalPending: nat, totalDomains: nat, domains: map<string, DomainInfo>)

  function InfoOf(report: CrawlReport): CrawlInfo {
    CrawlInfo(report.totalPending, report.domains, report.totalDomains, None)
  }

  /** The same totals, one level down. */
  ghost predicate DescribesOneCrawl(report: CrawlReport, entries: set<Entry>) {
    DescribesCrawl(InfoOf(report), entries)
  }

  function CountInReport(report: CrawlReport, domain: string, priority: int): CrawlReport {
    var isNew := domain !in report.domains;
    var before := if isNew then NEW_DOMAIN else report.domains[domain];
    CrawlReport(report.totalPending + 1, report.totalDomains + (if isNew then 1 else 0),
                report.domains[domain := CountInDomain(before, priority)])
  }

  const NO_CRAWL := CrawlReport(0, 0, map[])

  function CrawlTally(order: seq<Entry>): CrawlReport {
    if order == [] then NO_CRAWL
    else
      var e := order[|order| - 1];
      CountInReport(CrawlTally(order[..|order| - 1]), e.key.domain, e.item.priority)
  }

  lemma {:induction false} CrawlTallyDescribes(order: seq<Entry>)
    requires DistinctEntries(order)
    ensures DescribesOneCrawl(CrawlTally(order), EntrySet(order))
    decreases |order|
  {
    if order == [] {
    } else {
      var n := |order| - 1;
      LastApart(order);
      CrawlTallyDescribes(order[..n]);
      CrawlCounts(InfoOf(CrawlTally(order[..n])), EntrySet(order[..n]), order[n]);
    }
  }

  ghost function OfCrawl(key: QueueKey, items: set<Item>, id: CrawlId): set<Entry> {
    set i | i in items && i.id == id :: Entry(key, i)
  }

  method CountCrawlBin(report: CrawlReport, items: seq<Item>, key: QueueKey, id: CrawlId, ghost order: seq<Entry>, ghost before: set<Item>)
    returns (report': CrawlReport, ghost order': seq<Entry>)
    requires report == CrawlTally(order) && DistinctEntries(order) && DistinctItems(items)
    requires OtherQueues(order, key, before) && forall i :: i in items ==> i !in before
    ensures report' == CrawlTally(order') && DistinctEntries(order')
    ensures EntrySet(order') == EntrySet(order) + OfCrawl(key, ItemSet(items), id)
    ensures OtherQueues(order', key, before + ItemSet(items))
  {
    report', order' := report, order;
    for j := 0 to |items|
      invariant report' == CrawlTally(order') && DistinctEntries(order')
      invariant EntrySet(order') == EntrySet(order) + OfCrawl(key, ItemSet(items[..j]), id)
      invariant OtherQueues(order', key, before + ItemSet(items[..j]))
    {
      var item := items[j];
      PrefixItems(items, j);
      if item.id.app == id.app && item.id.crawl == id.crawl {
        Appended(order', Entry(key, item));
        report' := CountInReport(report', key.domain, item.priority);
        order' := order' + [Entry(key, item)];
      }
    }
    assert items[..|items|] == items;
  }

  method CountCrawlBins(report: CrawlReport, bins: map<int, seq<Item>>, scores: map<Entry, int>, key: QueueKey, id: CrawlId,
                        ghost order: seq<Entry>)
    returns (report': CrawlReport, ghost order': seq<Entry>)
    requires Bins(bins, scores, key, ItemsOf(scores, key))
    requires report == CrawlTally(order) && DistinctEntries(order) && OtherQueues(order, key, {})
    ensures report' == CrawlTally(order') && DistinctEntries(order')
    ensures EntrySet(order') == EntrySet(order) + OfCrawl(key, ItemsOf(scores, key), id)
  {
    report', order' := report, order;
    var left := bins.Keys;
    while left != {}
      invariant left <= bins.Keys
      invariant report' == CrawlTally(order') && DistinctEntries(order')
      invariant EntrySet(order') == EntrySet(order) + OfCrawl(key, BinnedIn(bins, bins.Keys - left), id)
      invariant OtherQueues(order', key, BinnedIn(bins, bins.Keys - left))
      decreases left
    {
      SomeMember(left);
      var score :| score in left;
      ghost var done := bins.Keys - left;
      left := left - {score};
      assert bins.Keys - left == done + {score};
      BinsApart(bins, scores, key, done, score);
      BinnedMore(bins, done, score);
      report', order' := CountCrawlBin(report', bins[score], key, id, order', BinnedIn(bins, done));
    }
    BinsCoverQueue(bins, scores, key);
  }

  /**
   * `_build_crawlid_info`: the report describes exactly the waiting requests of the
   * crawl, with the crawl's timeout if it has one.
   */
  method BuildCrawlidInfo(scores: map<Entry, int>, timeouts: map<string, real>, spider: string, id: CrawlId)
    returns (report: CrawlReport, expires: Option<real>)
    ensures expires == if TimeoutKey(spider, id) in timeouts then Some(timeouts[TimeoutKey(spider, id)]) else None
    ensures DescribesOneCrawl(report, set e | e in scores && e.key.spider == spider && e.item.id == id)
  {
    report, expires := NO_CRAWL, None;
    var timeoutKey := TimeoutKey(spider, id);
    if timeoutKey in timeouts {
      expires := Some(timeouts[timeoutKey]);
    }
    ghost var order: seq<Entry> := [];
    var keys := set e | e in scores && e.key.spider == spider :: e.key;
    while keys != {}
      invariant forall k :: k in keys ==> k.spider == spider
      invariant report == CrawlTally(order) && DistinctEntries(order)
      invariant EntrySet(order) == set e | e in InCrawl(AppEntries(scores, spider, id.app), id.crawl) && e.key !in keys
      decreases keys
    {
      var key :| key in keys;
      keys := keys - {key};
      var bins := GetBin(scores, key);
      assert forall e :: e in order <==> e in EntrySet(order);
      report, order := CountCrawlBins(report, bins, scores, key, id, order);
    }
    assert EntrySet(order) == set e | e in scores && e.key.spider == spider && e.item.id == id;
    CrawlTallyDescribes(order);
  }

  // ------------------------------------------------------ what the numbers mean

  /** The sum of a map's values. */
  ghost function Sum(m: map<string, nat>): nat {
    if m == map[] then 0
    else
      var k :| k in m;
      m[k] + Sum(m - {k})
  }

  /** The sizes of the parts of a set that is split by a tag add up to its size. */
  lemma {:induction false} PartsAddUp(entries: set<Entry>, tag: Entry -> string, sizes: map<string, nat>)
    requires sizes.Keys == set e | e in entries :: tag(e)
    requires forall k :: k in sizes ==> sizes[k] == |set e | e in entries && tag(e) == k|
    ensures Sum(sizes) == |entries|
    decreases |sizes|
  {
    if sizes == map[] {
      assert forall e :: e in entries ==> tag(e) in sizes.Keys;
    } else {
      var k :| k in sizes && Sum(sizes) == sizes[k] + Sum(sizes - {k});
      var part := set e | e in entries && tag(e) == k;
      var rest := entries - part;
      forall j | j in sizes - {k} ensures (sizes - {k})[j] == |set e | e in rest && tag(e) == j| {
        assert (set e | e in rest && tag(e) == j) == set e | e in entries && tag(e) == j;
      }
      assert (sizes - {k}).Keys == set e | e in rest :: tag(e);
      PartsAddUp(rest, tag, sizes - {k});
      assert entries == part + rest && |entries| == |part| + |rest|;
    }
  }

  function CrawlTotals(report: AppReport): map<string, nat> {
    map c | c in report.crawlids :: report.crawlids[c].total
  }

  function DomainTotals(info: CrawlInfo): map<string, nat> {
    map d | d in info.domains :: info.domains[d].total
  }

  /** A crawl's total is the sum of its domains' totals. */
  lemma DomainTotalsAddUp(info: CrawlInfo, entries: set<Entry>)
    requires DescribesCrawl(info, entries)
    ensures Sum(DomainTotals(info)) == info.total
  {
    var tag := (e: Entry) => e.key.domain;
    forall d | d in DomainTotals(info) ensures DomainTotals(info)[d] == |set e | e in entries && tag(e) == d| {
      assert (set e | e in entries && tag(e) == d) == InDomain(entries, d);
    }
    assert DomainTotals(info).Keys == set e | e in entries :: tag(e);
    PartsAddUp(entries, tag, DomainTotals(info));
  }

  /**
   * Main result: the pending total of a report is the sum of its crawls' totals,
   * each of those the sum of its domains' totals, and the counts of crawls and
   * domains are the sizes of the sets of waiting requests they name.
   */
  lemma ReportAddsUp(report: AppReport, entries: set<Entry>)
    requires DescribesApp(report, entries)
    ensures Sum(CrawlTotals(report)) == report.totalPending == |entries|
    ensures report.totalCrawlids == |Crawls(entries)|
    ensures forall c :: c in report.crawlids ==>
              && Sum(DomainTotals(report.crawlids[c])) == report.crawlids[c].total == |InCrawl(entries, c)|
              && report.crawlids[c].distinctDomains == |Domains(InCrawl(entries, c))|
  {
    var tag := (e: Entry) => e.item.id.crawl;
    forall c | c in CrawlTotals(report) ensures CrawlTotals(report)[c] == |set e | e in entries && tag(e) == c| {
      assert (set e | e in entries && tag(e) == c) == InCrawl(entries, c);
    }
    assert CrawlTotals(report).Keys == set e | e in entries :: tag(e);
    PartsAddUp(entries, tag, CrawlTotals(report));
    assert |report.crawlids| == |report.crawlids.Keys|;
    forall c | c in report.crawlids
      ensures Sum(DomainTotals(report.crawlids[c])) == report.crawlids[c].total
      ensures report.crawlids[c].distinctDomains == |Domains(InCrawl(entries, c))|
    {
      DomainTotalsAddUp(report.crawlids[c], InCrawl(entries, c));
      assert |report.crawlids[c].domains| == |report.crawlids[c].domains.Keys|;
    }
  }

  ghost predicate IsHighest(p: int, entries: set<Entry>) {
    (exists e :: e in entries && e.item.priority == p) && forall e :: e in entries ==> e.item.priority <= p
  }

  ghost predicate IsLowest(p: int, entries: set<Entry>) {
    (exists e :: e in entries && e.item.priority == p) && forall e :: e in entries ==> p <= e.item.priority
  }

  /**
   * Main result: the reported extremes are the true ones exactly when some entry
   * reaches the starting value it is compared with.
   */
  lemma ExtremesTrueWithinSentinels(info: DomainInfo, entries: set<Entry>)
    requires DescribesDomain(info, entries)
    ensures IsHighest(info.high, entries) <==> exists e :: e in entries && -9999 <= e.item.priority
    ensures IsLowest(info.low, entries) <==> exists e :: e in entries && e.item.priority <= 9999
  {
    if e :| e in entries && HIGH_START <= e.item.priority {
      assert info.high == HIGH_START ==> e.item.priority == info.high;
    }
    if e :| e in entries && e.item.priority <= LOW_START {
      assert info.low == LOW_START ==> e.item.priority == info.low;
    }
  }
}
