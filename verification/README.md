# A verified model of the distributed crawl frontier

The repository is a crawling cluster in which many crawler processes share one
frontier of waiting requests through Redis, and monitor processes stop, expire and
describe crawls. This project models the logic of that frontier in Dafny 4.11 and
proves what it keeps, over every interleaving where processes interleave and over
every series of calls where they do not. `dafny verify dfyconfig.toml` checks it.

## The parts

**The throttle** (`Stamps`, `ThrottleConfig`, `ThrottleProtocol`, `ThrottleSafety`,
`ThrottleSpec`, `ThrottleSolo`, `ThrottleTtl`, `ThrottledQueue`). N processes race over
a sorted set of hit stamps and a "last pop" key with optimistic transactions. Each
Redis command and each clock reading is a step of its own, expiry of either key is a
step too, and a schedule is any sequence of steps. The safety results hold for every
number of processes and every schedule. They are complemented by a specification over
the full history, nothing of it pruned or expired: from any reachable state a call that
nobody interrupts answers what the specification permits. `ThrottledQueue` has the queue
as the object it is in the program, its methods proved against the same specification.

**Queues** (`Codec`, `SortedSet`, `RedisQueues`, `QueueViews`). The FIFO queue, the stack
and the priority queue as classes, and what comes out of them after any pushes and pops.
The priority queue's sorted set and the store's map of scores are shown to be two views of
the same keys.

**The scheduler** (`Frontier`, `RedisStore`, `QueueSettings`, `Scheduler`, `SeedFeed`,
`Ledger`). The cache of throttled queues over Redis with its reconfiguration, expiry,
filters and retry loop, as a class whose invariant rules out every cache miss. The ledger
is a set of books over everything that works on one Redis. The store carries it as ghost
state, and the methods that feed, enqueue, pop and purge perform exactly its operations.

**Crawl growth** (`CrawlMeta`, `CrawlSteps`, `CrawlGrowth`). The code that makes new
requests (feeding, link following, retrying, passing meta on), what every request of a
crawl shares with its seed, and a measure that bounds the whole crawl.

**Page limits** (`PageLimits`). The two page filters as series of separate commands on
shared counters.

**Stopping a crawl** (`StopProtocol`, `PurgeMonitors`). The purges of the stop and expire
monitors, racing with crawlers that check a blacklist and then push, and the monitors
themselves on the shared store.

**Reports and small machines** (`InfoReport`, `CounterProtocol`, `StatsCounters`,
`WatcherModel`, `ZookeeperWatching`, `FailureRetry`; `IntSets` and `Options` are helpers).
The info monitor's aggregation, the windowed counters with counting threads and a rolling
one as a step machine, the ZooKeeper watcher and the Redis monitor's failure handling.

## Where the code does less than it seems to

Where a property fails, the lemma or contract named says exactly when it holds.

- The life of the throttle keys is `int(window * 2)` seconds, which is zero for windows
  under half a second. Then the window key is gone at once, and with moderation Redis
  refuses to set the moderate key. The limit on committed hits holds in every run,
  moderated or not, if and only if the window is at least half a second
  (`BoundedExactlyFromHalfASecond`).
- Two schedulers that both find a page counter missing can both set it to zero, and more
  pages than the limit get through. Starting without the key, the limit holds in every run
  if and only if there is one scheduler or the limit is 1 (`MissingKeyNeedsOneScheduler`,
  and `MissingGlobalKeyNeedsOneScheduler` for the global filter).
- The moderation gap is computed only when a queue is built. Changed in place, a queue is
  as configured if and only if the old gap carries over, that is, the ratio of window and
  limit stays (`InPlaceCompleteIffGapCarriesOver`).
- A queue that is cached while it is empty in Redis is not rebuilt by a configuration
  change: it keeps its gap, and its window and limit too if its domain is not configured.
  A change lasts over every later series of refreshes, expiries and uses if and only if
  no cached queue slips through like that (`ChangeLastsIffNoneSlipsThrough`);
  `StaleGapSlipsThrough` has such a queue. A wiped configuration rebuilds nothing at all
  unless a reload was due (`WipeLastsIffNoneKeepsOldSettings`).
- `error_config` looks every configured domain up in the cache without checking. It
  succeeds if and only if each of them has a cached queue (contract of `ErrorConfig`).
- Purging a crawl is final if and only if no crawler is between its blacklist check and its
  push when the third purge begins, and no seed of the crawl is fed from then on
  (`PurgeFinalIffNoStragglerNoSeed`). Seeds are not checked against the blacklist: a late
  one stays until it is popped (`LateSeedStays`).
- The blacklist entry of a crawl is `appid||crawlid`. Two applications can have crawls that
  share one if and only if one name followed by the bars begins the other name followed by
  them (`SharedKeyIffOneNameBeginsTheOther`).
- The reported highest and lowest priorities are compared with -9999 and 9999 first, and
  are true if and only if some priority reaches that value (`ExtremesTrueWithinSentinels`).
- Reading the same pointer again does not retry a pointed file that failed: the watcher
  stays invalid through any number of such reads (`SamePointerDoesNotRetry`), and one event
  makes it valid again if and only if it brings another pointer, a change of the pointed
  file, or a new connection that reads both (`RevivesExactly`).
- Keys are joined with colons and split again. The expire monitor finds the crawl that a
  timeout key is about if and only if no name in it has a colon
  (`ExpiryFindsItsCrawlIffPlainNames`); otherwise it stops another one
  (`AnotherCrawlExpires`). A stop request is heard under the same condition
  (`StopIsHeardIffPlainNames`).
- Counting a hit reads the clock, compares and inserts in three steps, and a roll can fall
  between. With a lag of at most d a stamp of bucket s lies in [s - d, s + window)
  (`LagBoundsBuckets`). `expire` never removes a hit if and only if d is below one second
  (`NothingLostIffLagBelowOne`). The buckets partition the hits if and only if no roll takes
  the window past a hit before it is inserted, which for readings inside their window means
  no roll at all (`PartitionedIffNoneOvertaken`); `OvertakenHit` is such a hit.
- The set of fingerprints of a crawl is forgotten after an idle spell, and then a
  fingerprint passes the duplicate filter again: at most once, and once more for every time
  the set was forgotten (`RequestsAreConserved`; `ForgottenPassesAgain` passes twice).
- The measure with one factor b + 1 for every level and retry left, where b bounds the links
  of a page, bounds every run from a pool if and only if b is at least 1 or nothing in the
  pool can be retried (`PlainBaseBoundsIffLinksOrExhausted`). Any base above both b and 1
  does (`CrawlTerminates`).
- The link spider defaults a missing `curdepth` to 0 when it compares it and not when it
  passes it on. In a crawl this cannot end in a key error, because feeding fills the field
  in and every request inherits it (`CrawlNeverLacksField`); the contract of `Parse` has the
  condition for any other page.
- A request's fingerprint is recorded even if a later filter turns the request away: after
  any `enqueue_request` the duplicate filter lets the same request through if and only if it
  is not to be filtered (contract of `EnqueueRequest`).

## Model

The main results come first, then the members they rest on, part by part.

| member | source | states |
|---|---|---|
| ThrottleSafety.HitsNeverExceedLimit | utils/scutils/redis_throttled_queue.py:28-40 | in every run committed hits are in increasing order and no interval (t - window, t] holds more than `limit` of them |
| ThrottleSafety.PopsNeverExceedHits | utils/scutils/redis_throttled_queue.py:136-150 | in every run each allowed pop has a hit of its own process that pays for no other pop, so pops obey the window limit too, although a hit may commit and the moderation transaction after it fail |
| ThrottleSafety.ModerationGap | utils/scutils/redis_throttled_queue.py:58-65 | without elastic catch-up `limit` times the difference of successive values of the moderate key is at least the window, in every run, its expiry included |
| ThrottleSafety.ShortGapIsCatchUp | utils/scutils/redis_throttled_queue.py:159-170 | a difference that `limit` times does not fill the window was taken by an elastic process that had itself been allowed `limit` pops when it checked, while the hits committed by then left more than `elastic_buffer` slots of its window free |
| ThrottleSolo.UninterruptedCallMeetsSpec | utils/scutils/redis_throttled_queue.py:112-157 | from any reachable state an uninterrupted call answers what the specification permits over the full history; True adds one hit, one pop and, if moderated, one turn at its clock reading; False changes none of them |
| ThrottleTtl.BoundedExactlyFromHalfASecond | utils/scutils/redis_throttled_queue.py:136-150 | the window limit on committed hits holds in every run, moderated or not, if and only if the window is at least half a second |
| StopProtocol.ChecksAfterStopFail | crawler/crawling/distributed_scheduler.py:447-449 | once a crawl is blacklisted no crawler gets past the check with a request of it |
| StopProtocol.OnlyStragglersAndSeedsSurvive | redis-monitor/plugins/stop_monitor.py:82-85 | what outlives the purges are requests of crawlers between check and push when the third purge began, and seeds fed since |
| StopProtocol.SurvivorsCheckedBeforeStop | redis-monitor/plugins/stop_monitor.py:40-48 | over the whole run, a request that outlives the three purges had passed its check before the crawl was blacklisted, or is a seed fed since the third purge began |
| StopProtocol.PurgeFinalIffNoStragglerNoSeed | redis-monitor/plugins/stop_monitor.py:73-113 | the purge is final in every run that feeds only given seeds if and only if no crawler was between check and push when the third purge began and none of the seeds is of the crawl |
| StopProtocol.OthersStayStored | redis-monitor/plugins/stop_monitor.py:89-113 | an entry of another crawl that nobody pops stays stored through any run |
| StopProtocol.PurgeCanFinish | redis-monitor/plugins/stop_monitor.py:73-87 | after the stop, from any state of any run, the monitor can finish its three passes by itself |
| CrawlGrowth.CrawlConserves | crawler/crawling/redis_retry_middleware.py:9-18 | along any mix of links and retries priority + 10 depth + 10 retries stays the seed's, depth and retries count the moves and stay within their limits, and all other fields are the seed's |
| CrawlGrowth.CrawlTerminates | crawler/crawling/redis_retry_middleware.py:9-18 | under any order of pops, failures and filtering the number of processed requests is at most the potential of the seeds, for any base above the links of a page and above 1 |
| CrawlGrowth.SeedsTerminate | crawler/crawling/redis_retry_middleware.py:9-18 | so from fed seeds at most (base to the power of depth limit plus retry limit) requests per seed are processed |
| CrawlGrowth.PlainBaseBoundsIffLinksOrExhausted | crawler/crawling/redis_retry_middleware.py:9-18 | the base of links plus one bounds every run from a pool if and only if pages may have a link or nothing in the pool can be retried |
| PageLimits.PageLimitHolds | crawler/crawling/redis_domain_max_page_filter.py:47-63 | in every interleaving on keys that are there each filter lets at most n - 1 requests of limit n or less through |
| PageLimits.CounterOvershootBounded | crawler/crawling/redis_domain_max_page_filter.py:51-63 | with P schedulers neither counter passes n - 1 + P for its limit n, unless it started above that |
| PageLimits.BothLimitsHold | crawler/crawling/distributed_scheduler.py:429-444 | with both filters on exactly what passed the global filter is enqueued, and fewer requests than either limit |
| PageLimits.MissingKeyNeedsOneScheduler | crawler/crawling/redis_domain_max_page_filter.py:47-63 | starting without the key the limit holds in every run if and only if there is one scheduler or the limit is 1 |
| PageLimits.MissingGlobalKeyNeedsOneScheduler | crawler/crawling/redis_global_page_per_domain_filter.py:54-68 | the same if and only if for the global filter, with the domain filter off |
| Ledger.RequestsAreConserved | crawler/crawling/distributed_scheduler.py:464-512 | over any operations of any schedulers, feeders and monitors fed + accepted = returned + purged + still queued + merged into equal entries, and a fingerprint passes the duplicate filter at most once and once more for every time its set was forgotten |
| Scheduler.DistributedScheduler.EnqueueRequest | crawler/crawling/distributed_scheduler.py:414-488 | accepted exactly if the fingerprint is new or not to be filtered, both page counts are more than one below their limits, the spider's blacklist lacks the joined application and crawl, the domain is wanted and the request has not expired, and then stored; what each filter records in every case; that the duplicate filter lets the request through again exactly if it is not to be filtered; and what the books take down |
| Scheduler.DistributedScheduler.FindItem | crawler/crawling/distributed_scheduler.py:490-512 | for any shuffle and any answers of the throttles: at most (retries + 1) pops per listed queue, at most the returned entry removed, the best of its queue, never of a blacklisted domain, let through by its throttle after every queue tried before it was refused, and its queue marked as used now; None only if every listed queue that had something was refused in each of the (retries + 1) rounds; and the books perform the find |
| QueueSettings.ChangeLastsIffNoneSlipsThrough | crawler/crawling/distributed_scheduler.py:212-272 | after a change every listed queue has the prescribed window, limit and gap over every later series of refreshes, expiries and uses, if and only if no queue cached before is empty in Redis with another gap, or with other settings and not configured |
| QueueSettings.WipeLastsIffNoneKeepsOldSettings | crawler/crawling/distributed_scheduler.py:184-199 | after a wiped configuration every listed queue has the defaults for good if and only if no cached queue keeps another gap, or other settings and was not configured; live ones do not matter if a reload was due |
| Frontier.SharedKeyIffOneNameBeginsTheOther | crawler/crawling/distributed_scheduler.py:409-412 | two applications can have different crawls with one blacklist entry if and only if one name followed by the bars begins the other name followed by them |
| PurgeMonitors.ExpiryFindsItsCrawlIffPlainNames | redis-monitor/plugins/expire_monitor.py:37-40 | the parts of a timeout key name its spider, application and crawl if and only if none of them has a colon |
| RedisQueues.QueueIsFifo | utils/scutils/redis_queue.py:80-109 | however pushes and pops are mixed, the items returned are the first ones pushed, in order, and the list holds exactly the others |
| RedisQueues.StackIsLifo | utils/scutils/redis_queue.py:144-173 | draining returns every pushed item once, the k-th from the end at position k |
| RedisQueues.DrainGivesPriorityOrder | utils/scutils/redis_queue.py:112-141 | after any pushes draining gives each pushed item once, in non-increasing order of its last priority, ties in member order |
| QueueViews.PushShows | crawler/crawling/distributed_scheduler.py:470-477 | pushing through a cached queue and storing directly leave the same queue |
| QueueViews.PopShows | utils/scutils/redis_queue.py:130-141 | popping the sorted set returns the best stored entry of the queue and leaves the same queue |
| InfoReport.BuildAppidInfo | redis-monitor/plugins/info_monitor.py:81-150 | whatever the order of queues, bins and items, the report describes exactly the application's waiting requests, and `total_domains` counts their domains |
| InfoReport.BuildCrawlidInfo | redis-monitor/plugins/info_monitor.py:152-202 | the report describes exactly the crawl's waiting requests, with its timeout exactly if it has one |
| InfoReport.ReportAddsUp | redis-monitor/plugins/info_monitor.py:113-148 | the pending total is the sum of the crawls' totals and the number of waiting requests, and the counts of crawls and domains are the sizes of their sets |
| CounterProtocol.NothingLostIffLagBelowOne | utils/scutils/stats_collector.py:440-444 | no inserted hit is ever expired in any run of lag at most d if and only if d is below one second |
| CounterProtocol.PartitionedIffNoneOvertaken | utils/scutils/stats_collector.py:366-368 | the buckets partition the hits of a run by window if and only if no roll took the window past a hit before its insertion; for readings inside their window, if and only if no roll fell between |
| StatsCounters.RollingTimeWindow.Expire | utils/scutils/stats_collector.py:469-471 | just after it the key holds exactly the distinct stamps of the history in (now - window, now] |
| WatcherModel.ReportsAlternate | utils/scutils/zookeeper_watcher.py:259-276 | in every run validity reports start with True and alternate, remembered data is the last configuration delivered, and with a pointer valid means not expired |
| WatcherModel.DeliveriesDiffer | utils/scutils/zookeeper_watcher.py:294-302 | in every run two deliveries in a row differ unless a reset is between them |
| WatcherModel.GoodReadsAreDelivered | utils/scutils/zookeeper_watcher.py:225-228 | after any run, contents that are read are remembered, the configuration handler is called with them exactly once if they are not what it was last called with since the last reset and not at all if they are, and the validity handler with True exactly if the watcher was not valid |
| WatcherModel.ValidDeliveredLastRead | utils/scutils/zookeeper_watcher.py:238-257 | in every run, with a pointer or without, what a valid watcher last read is what it remembers and, unless empty, the last configuration delivered |
| WatcherModel.SamePointerDoesNotRetry | utils/scutils/zookeeper_watcher.py:211-217 | in every run, once a pointed file failed the watcher stays invalid through any reads of the same pointer, until the pointer changes, the pointed file is read, or it connects anew |
| FailureRetry.JobLife | redis-monitor/redis_monitor.py:207-249 | for any outcomes a job key is there exactly if no visit succeeded and, with retrying, at most RETRY_FAILURES_MAX of them failed; while it is there the stored count is the number of failures, and once it is gone so is the count |
| ThrottleConfig.TtlCoversWindow | utils/scutils/redis_throttled_queue.py:208 | the truncated life of the keys covers the window exactly for windows of half a second and more |
| ThrottleConfig.GapPassed | utils/scutils/redis_throttled_queue.py:60 | a time reaches the gap if and only if `limit` such times reach the window |
| Stamps.RemoveUpToDropsPrefix | utils/scutils/redis_throttled_queue.py:119-121 | pruning drops a prefix of the sorted set: all stamps up to the bound and no other |
| Stamps.WindowBoundIsSpacing | utils/scutils/redis_throttled_queue.py:28-31 | no window holds more than `limit` stamps exactly if any stamp and the `limit`-th after it are a window apart |
| ThrottleSafety.RunInv | utils/scutils/redis_throttled_queue.py:112-218 | the invariant holds after every schedule of any number of processes |
| ThrottleSafety.KickInCountsOwnPops | utils/scutils/redis_throttled_queue.py:99-102 | the elastic counter of a process is its own number of pops, capped at the limit |
| ThrottleSolo.KeysDecideAsHistory | utils/scutils/redis_throttled_queue.py:112-157 | the two keys, pruned and expired as they are, decide as the full histories of hits and turns |
| ThrottledQueue.ThrottleKeys.Refresh | utils/scutils/redis_throttled_queue.py:119-121 | after expiry and pruning the key counts the hits of the full history within the window |
| ThrottledQueue.ThrottleKeys.Hit | utils/scutils/redis_throttled_queue.py:204-209 | a newer stamp is added at the end of the key and of the history |
| ThrottledQueue.RedisThrottledQueue.constructor | utils/scutils/redis_throttled_queue.py:24-68 | a new instance is not warmed up yet |
| ThrottledQueue.RedisThrottledQueue.CheckElastic | utils/scutils/redis_throttled_queue.py:159-170 | the answer is the catch-up rule of the specification |
| ThrottledQueue.RedisThrottledQueue.IsModerated | utils/scutils/redis_throttled_queue.py:172-190 | moderated exactly if less than the gap has passed since the value of the moderate key, 0.0 if it is absent |
| ThrottledQueue.RedisThrottledQueue.TestHits | utils/scutils/redis_throttled_queue.py:192-218 | True exactly if the key holds fewer than `limit` hits, and then one hit is added |
| ThrottledQueue.RedisThrottledQueue.Allowed | utils/scutils/redis_throttled_queue.py:112-157 | the answer is what the specification permits over the full history, with the hit and the turn it records, and what False leaves alone |
| ThrottledQueue.RedisThrottledQueue.Pop | utils/scutils/redis_throttled_queue.py:90-104 | a permitted pop takes the head of the queue and warms the instance up; any other changes neither queue nor history |
| SortedSet.AddIsUpdate | utils/scutils/redis_queue.py:128 | adding keeps the set ordered with distinct members and replaces only the member's own entry |
| SortedSet.LessIsLexicographic | utils/scutils/redis_queue.py:138 | members of equal score rank by the first character in which they differ, a beginning before what it begins |
| SortedSet.OrderIsUnique | utils/scutils/redis_queue.py:138 | a sorted set is determined by its entries |
| RedisQueues.RedisQueue.Push | utils/scutils/redis_queue.py:91-96 | the encoded item goes to the left end |
| RedisQueues.RedisQueue.Pop | utils/scutils/redis_queue.py:98-109 | the right end is taken and decoded, if there is a timeout also one that arrives while an empty list is waited on; None if there is none |
| RedisQueues.RedisStack.Push | utils/scutils/redis_queue.py:155-159 | the encoded item goes to the left end |
| RedisQueues.RedisStack.Pop | utils/scutils/redis_queue.py:161-173 | the left end is taken and decoded, if there is a timeout also one that arrives while an empty list is waited on; None if there is none |
| RedisQueues.RedisPriorityQueue.Push | utils/scutils/redis_queue.py:121-128 | the encoded item gets its negated priority as score and every other member keeps its own |
| RedisQueues.RedisPriorityQueue.Pop | utils/scutils/redis_queue.py:130-141 | the first rank is removed and returned; None if the set is empty |
| RedisQueues.OnlyLastPushesMatter | utils/scutils/redis_queue.py:121-128 | two series of pushes that agree on each item's last priority leave the same queue |
| QueueViews.OneSetShows | utils/scutils/redis_queue.py:138 | the stored requests of a queue determine its sorted set |
| Frontier.PlainNamesNeverShare | crawler/crawling/distributed_scheduler.py:409-412 | crawls of applications without a bar in their name share an entry only if they are the same crawl |
| Frontier.BlacklistKeyCollides | crawler/crawling/distributed_scheduler.py:409-412 | two different crawls that share a blacklist entry |
| RedisStore.BlacklistedIffStopped | redis-monitor/plugins/stop_monitor.py:40-48 | after any stops a crawl is turned away if and only if a crawl of its spider with the same joined application and name was stopped |
| QueueSettings.FitScale | crawler/crawling/distributed_scheduler.py:201-210 | the scale clamped to the interval from 0 to 1 |
| QueueSettings.EffectiveHits | crawler/crawling/distributed_scheduler.py:253-254 | hits times the fitted scale rounded down, so between 0 and hits |
| QueueSettings.FileIsVetted | crawler/crawling/distributed_scheduler.py:147-155 | a domain is configured exactly if its entry in the file has both a window and hits, and then window, hits and scale are the entry's |
| QueueSettings.PrescribedIffAsInFile | crawler/crawling/distributed_scheduler.py:235-258 | a queue is as prescribed if and only if it has the window, the hits scaled and rounded down, and the gap that the file gives its domain, or the defaults if the file lacks a window or hits for it |
| QueueSettings.InPlaceCompleteIffGapCarriesOver | crawler/crawling/distributed_scheduler.py:161-182 | the in-place update gives a configured queue the window and limit of the rebuild, and leaves it as configured, gap included, if and only if its old ratio of window and limit is the new one |
| QueueSettings.StaysIffSettled | crawler/crawling/distributed_scheduler.py:212-272 | over every series of refreshes, expiries and uses every listed queue is as prescribed if and only if every cached one is, listed or not |
| QueueSettings.StaleGapSlipsThrough | crawler/crawling/distributed_scheduler.py:171-182 | twice the hits for an empty cached queue: it goes on with a gap of 6 seconds where 3 are prescribed |
| RedisStore.Store.ZAdd | crawler/crawling/distributed_scheduler.py:477 | one entry gets its negated priority as score |
| RedisStore.Store.First | utils/scutils/redis_queue.py:138 | some entry of least score in the queue; None exactly if it is empty |
| RedisStore.Store.PopMin | utils/scutils/redis_queue.py:130-141 | exactly the returned entry is removed, of highest priority in its queue, and the books perform the find; None exactly if the queue is empty |
| RedisStore.Store.LiveKeys | crawler/crawling/distributed_scheduler.py:220 | the keys of the spider's non-empty queues, each once |
| RedisStore.Store.ZRem | redis-monitor/plugins/stop_monitor.py:110 | one entry is removed, and the books perform the purge |
| RedisStore.Store.RequestSeen | crawler/crawling/redis_dupefilter.py:22-29 | seen exactly if the set of the spider and crawl held the fingerprint, which it holds afterwards, for the timeout from now on |
| RedisStore.Store.ForgetMarks | crawler/crawling/redis_dupefilter.py:27 | once its time has come, exactly the crawl's fingerprints are gone, and the books perform the forgetting |
| RedisStore.Store.DomainLimitReached | crawler/crawling/redis_domain_max_page_filter.py:47-63 | for one scheduler at a time, reached exactly if the limit is at most one above the count, zero if there is none; the count grows by one up to the limit |
| RedisStore.Store.GlobalLimitReached | crawler/crawling/redis_global_page_per_domain_filter.py:54-68 | the same for the global limit |
| RedisStore.FilterDoesItsCommands | crawler/crawling/redis_domain_max_page_filter.py:47-63 | undisturbed, the filter's separate commands come to that verdict and that count |
| RedisStore.Store.Record | crawler/crawling/distributed_scheduler.py:464-477 | the books take an operation and go on agreeing with what is stored and seen |
| SeedFeed.ScraperHandler.Handle | kafka-monitor/plugins/scraper_handler.py:35-59 | the seed is stored under its negated priority, unchecked, with a timeout under the joined key exactly if it expires, and the books perform the feed |
| Scheduler.DistributedScheduler.constructor | crawler/crawling/distributed_scheduler.py:377-380 | an opened scheduler lists and caches exactly the live queues |
| Scheduler.DistributedScheduler.CreateQueues | crawler/crawling/distributed_scheduler.py:212-258 | exactly the live queues are listed and all of them cached; new or reconfigured ones are as prescribed and used now, all others as before; the store is not touched |
| Scheduler.DistributedScheduler.EnsureQueue | crawler/crawling/distributed_scheduler.py:235-258 | one queue is rebuilt from its domain's settings or the defaults, exactly if it is new or the configuration is |
| Scheduler.DistributedScheduler.ExpireQueues | crawler/crawling/distributed_scheduler.py:260-272 | exactly the queues unused for longer than the timeout leave the cache and the list; the store is not touched |
| Scheduler.DistributedScheduler.LoadDomainConfig | crawler/crawling/distributed_scheduler.py:140-159 | exactly the entries with a window and hits are kept, with the window, hits and scale of the file; the domain blacklist is replaced only if given |
| Scheduler.DistributedScheduler.UpdateDomainQueues | crawler/crawling/distributed_scheduler.py:161-182 | exactly the cached queues of configured domains take their window and limit, and keep gap and time of use |
| Scheduler.DistributedScheduler.ErrorConfig | crawler/crawling/distributed_scheduler.py:184-199 | it succeeds exactly if every configured domain is cached, and then the defaults are back; otherwise only some queues are reverted and the configuration stays |
| Scheduler.DistributedScheduler.ChangeConfig | crawler/crawling/distributed_scheduler.py:129-138 | after loading, every live queue has the window and gap of the file and its hits, scaled and rounded down, or the defaults where the file has no window or hits; a wiped configuration reverts to the defaults or fails |
| Scheduler.DistributedScheduler.PassFilters | crawler/crawling/distributed_scheduler.py:419-444 | the three filters in order, each recorded only if it is reached |
| Scheduler.DistributedScheduler.PopQueue | utils/scutils/redis_throttled_queue.py:90-104 | an allowed pop removes the best entry of the queue, if any, and the books perform it |
| Scheduler.DistributedScheduler.FindInRound | crawler/crawling/distributed_scheduler.py:498-508 | one round over the keys, None only if every non-empty queue was refused |
| Ledger.ForgottenPassesAgain | crawler/crawling/redis_dupefilter.py:26-29 | a fingerprint that passes, is forgotten and passes again |
| CrawlSteps.RequestFromFeed | crawler/crawling/distributed_scheduler.py:556-571 | a seed keeps all its fields and gets depth and retries of 0 where it has none |
| CrawlSteps.Parse | crawler/crawling/spiders/link_spider.py:22-79 | one request per link exactly while the page is not too deep, for the link without its newlines, one level deeper and ten less urgent, with the user agent of the crawl; the scraped item with these links; and exactly when it ends in a key error |
| CrawlSteps.CleanedDropsNewline | crawler/crawling/spiders/link_spider.py:64 | a link without a newline stays as it is, and a newline is all that goes from one, wherever it stands |
| CrawlSteps.Retry | crawler/crawling/redis_retry_middleware.py:9-18 | a copy with one more retry, ten less urgent and not filtered, exactly while retries are left |
| CrawlSteps.InheritMeta | crawler/crawling/meta_passthrough_middleware.py:49-51 | exactly the missing fields are inherited |
| CrawlSteps.PassThrough | crawler/crawling/meta_passthrough_middleware.py:37-52 | every request inherits exactly its missing fields and nothing else of it changes |
| CrawlSteps.FollowLinks | crawler/crawling/meta_passthrough_middleware.py:43-52 | after spider and middleware every link has its page's meta but for depth and priority, retries included |
| CrawlGrowth.RetriesAreShared | crawler/crawling/meta_passthrough_middleware.py:49-51 | a path from a seed has at most depth limit plus retry limit moves, each costing ten of priority: retries are shared along it |
| CrawlGrowth.CrawlNeverLacksField | crawler/crawling/distributed_scheduler.py:564-571 | no page of a crawl lacks a field that the spider reads without a default |
| CrawlGrowth.ProcessReplaces | crawler/crawling/spiders/link_spider.py:54-76 | processing a request takes one copy of it from the pool and adds the kept links, each a followed copy, or the one retry |
| PageLimits.AloneCounts | crawler/crawling/redis_domain_max_page_filter.py:47-63 | an undisturbed filter of limit n passes a request exactly if at most n - 1 are counted with it, and counts up to n |
| PageLimits.AtMostLimitMinusOne | crawler/crawling/redis_domain_max_page_filter.py:58-63 | distinct results below each request's own limit let at most n - 1 requests of limit n or less through |
| PageLimits.RaceExceedsLimit | crawler/crawling/redis_domain_max_page_filter.py:47-49 | a schedule of two schedulers on a missing key that lets as many requests as the limit through |
| StopProtocol.LateSeedStays | kafka-monitor/plugins/scraper_handler.py:50-51 | a seed fed after the purge stays stored through any run until somebody pops it, although its crawl is blacklisted |
| StopProtocol.StopBlocksSameKeyOnly | crawler/crawling/distributed_scheduler.py:403-412 | at any time after the stop a check turns away another crawl's request if and only if they share a blacklist entry |
| PurgeMonitors.StopIsHeardIffPlainNames | redis-monitor/plugins/stop_monitor.py:24-32 | a stop key has four parts if and only if no name has a colon, and then they name the crawl |
| PurgeMonitors.AnotherCrawlExpires | redis-monitor/plugins/expire_monitor.py:37-54 | the end of any crawl of application `a:b` is taken for that of crawl `b` of application `a` |
| PurgeMonitors.SplitHalves | redis-monitor/plugins/stop_monitor.py:24 | two halves joined with a colon split into the parts of both |
| PurgeMonitors.StopMonitor.PurgeQueue | redis-monitor/plugins/stop_monitor.py:103-111 | exactly the crawl's entries of one queue are removed and counted, and the books take them as purged |
| PurgeMonitors.StopMonitor.MiniPurge | redis-monitor/plugins/stop_monitor.py:89-113 | exactly the crawl's entries in the spider's queues are removed and counted, and the books take them as purged |
| PurgeMonitors.StopMonitor.PurgeCrawl | redis-monitor/plugins/stop_monitor.py:73-87 | undisturbed, three passes remove and count what one does |
| PurgeMonitors.StopMonitor.HandleStop | redis-monitor/plugins/stop_monitor.py:16-71 | a key of four parts blacklists and purges the crawl and drops its timeout if acknowledged; any other changes nothing |
| PurgeMonitors.StopMonitor.HandleExpired | redis-monitor/plugins/expire_monitor.py:18-54 | once the time of the key is over, and only then, the crawl that parts 1 to 3 of the key name is blacklisted and purged |
| InfoReport.GetBin | redis-monitor/plugins/info_monitor.py:60-79 | each item of the queue is in exactly the bin of its negated score, once |
| InfoReport.AppTallyDescribes | redis-monitor/plugins/info_monitor.py:105-146 | counting distinct entries in any order describes their set: totals, domains, crawls and extremes |
| InfoReport.CrawlTallyDescribes | redis-monitor/plugins/info_monitor.py:180-200 | the same for the report on one crawl |
| InfoReport.DomainTotalsAddUp | redis-monitor/plugins/info_monitor.py:126-138 | a crawl's total is the sum of its domains' totals |
| InfoReport.ExtremesTrueWithinSentinels | redis-monitor/plugins/info_monitor.py:129-144 | the reported highest (lowest) priority is the true one if and only if some priority is at least -9999 (at most 9999) |
| StatsCounters.TimeWindow.constructor | utils/scutils/stats_collector.py:291-295 | the start is the multiple of the window at or before the clock |
| StatsCounters.TimeWindow.CheckTime | utils/scutils/stats_collector.py:434 | whether the reading is before the end of the window of the moment |
| StatsCounters.TimeWindow.Insert | utils/scutils/stats_collector.py:435 | the reading joins the bucket of the moment |
| StatsCounters.TimeWindow.Increment | utils/scutils/stats_collector.py:432-435 | undisturbed, a hit is accepted exactly before the end of the window, into its bucket |
| StatsCounters.TimeWindow.Expire | utils/scutils/stats_collector.py:440-444 | the current bucket keeps exactly the stamps after a second before its window and before its end |
| StatsCounters.TimeWindow.PurgeOld | utils/scutils/stats_collector.py:401-410 | the newest buckets are kept, as many as there may be |
| StatsCounters.TimeWindow.DoThreadWork | utils/scutils/stats_collector.py:358-373 | expire, one roll exactly if the window is over, purge; a lost connection ends the round |
| CounterProtocol.LagBoundsBuckets | utils/scutils/stats_collector.py:432-435 | if every hit is inserted at most d after its reading, every stamp of bucket s lies in [s - d, s + window), in every interleaving of counting and rolling |
| CounterProtocol.LateHitIsExpired | utils/scutils/stats_collector.py:440-442 | a hit read a second before the end of a window and inserted after the roll is expired |
| CounterProtocol.OvertakenHit | utils/scutils/stats_collector.py:432-435 | a hit read before and inserted after a roll is in the bucket of the next window |
| StatsCounters.RollingTimeWindow.Increment | utils/scutils/stats_collector.py:462-464 | the stamp joins the history |
| WatcherModel.RevivesExactly | utils/scutils/zookeeper_watcher.py:197-257 | exactly which one event makes a failed watcher valid again |
| WatcherModel.InvalidThoughReadable | utils/scutils/zookeeper_watcher.py:211-217 | a run whose pointed file can be read again and whose watcher is still invalid |
| WatcherModel.UpdateDelivers | utils/scutils/zookeeper_watcher.py:197-230 | exactly which handlers one update of a reachable watcher calls, in order, and what it remembers, for every file and pointed file that is read or cannot be read |
| WatcherModel.PointedDelivers | utils/scutils/zookeeper_watcher.py:238-257 | the same for an event of the pointed file, which an expired pointer ignores |
| WatcherModel.LossIsReported | utils/scutils/zookeeper_watcher.py:133-146 | an interrupted connection is reported, a new one forgets the data and the pointer |
| ZookeeperWatching.ZookeeperWatcher.constructor | utils/scutils/zookeeper_watcher.py:32-75 | a new watcher is the start of a run |
| ZookeeperWatching.ZookeeperWatcher.SetValid | utils/scutils/zookeeper_watcher.py:259-268 | the state changes and is reported only if it differs |
| ZookeeperWatching.ZookeeperWatcher.UpdatePointed | utils/scutils/zookeeper_watcher.py:238-257 | the transition of the model that `PointedDelivers` and `ReportsAlternate` are about |
| ZookeeperWatching.ZookeeperWatcher.UpdateFile | utils/scutils/zookeeper_watcher.py:197-230 | the transition of the model that `UpdateDelivers` and `ReportsAlternate` are about, and whether to go on without a new connection |
| ZookeeperWatching.ZookeeperWatcher.InitConnections | utils/scutils/zookeeper_watcher.py:87-121 | data and pointer are forgotten, then the file is read until that succeeds |
| ZookeeperWatching.ZookeeperWatcher.WatchFile | utils/scutils/zookeeper_watcher.py:190-195 | one event of a run; a read that fails makes the watcher connect anew |
| ZookeeperWatching.ZookeeperWatcher.StateListener | utils/scutils/zookeeper_watcher.py:133-146 | one event of a run, or none: only a watcher that was not closed reacts to a lost session |
| FailureRetry.RedisMonitor.ProcessFailures | redis-monitor/redis_monitor.py:207-228 | a failed visit of this job and no change to any other |
| FailureRetry.RedisMonitor.ProcessKeyVal | redis-monitor/redis_monitor.py:230-249 | a visit of this job and no change to any other |
| FailureRetry.RedisMonitor.ProcessPlugin | redis-monitor/redis_monitor.py:166-191 | every listed job that no other monitor has locked is visited once, and no other job changes |

## Left out

- Clock readings are strictly increasing over all processes. Two equal readings would be one member of the window key.
- Time and windows are real numbers; the rounding of floating-point numbers and of their decimal strings is not modelled. Throttle limits are whole numbers.
- All instances of one throttled queue have the same settings, as the class asks; `clear` and `__len__` are not modelled.
- A throttled queue in the scheduler is its window, limit, gap and time of last use, a value in the cache; which pops it allows is an arbitrary function of queue and round there. Sharing of such an object outside the cache is not captured.
- A moderated queue with an effective limit of zero divides by zero when it is built; the model requires a positive limit there.
- ThrottledQueue.RedisThrottledQueue.TestHits: one caller at a time, so the failed watch does not occur; it does in `ThrottleProtocol`, where `ThrottleSafety.CommitHitMoves` is about it.
- ThrottledQueue.RedisThrottledQueue.Pop: the queue inside is a priority queue, the one that the crawler uses; the program takes any of the three.
- RedisStore.Store.DomainLimitReached: one step without expiry; the separate commands are in `PageLimits`, a counter that expires starts again from zero.
- RedisStore.Store.GlobalLimitReached: the same.
- StopProtocol.OnlyStragglersAndSeedsSurvive: a scan is taken to list every entry that stays stored throughout it, which is what Redis promises, and an entry it lists is handled before the next one is listed.
- The queues, blacklist and crawlers of the stop protocol are those of one spider.
- Scheduler.DistributedScheduler.PopQueue: the throttle's answer is an argument; what it is, and that an allowed pop takes the head, is in `ThrottledQueue` and `QueueViews`.
- CrawlSteps.Parse: the fields of the scraped item that come from the HTTP response.
- CrawlSteps.RequestFromFeed: the cookies that a seed brings along are not set.
- CrawlGrowth.CrawlTerminates: a redirected request re-enters the pool with its weight unchanged; how often that may happen is counted by Scrapy's own redirect middleware, which is not part of this model.
- The timing in `next_request` of refreshing, expiring and reporting; the address lookup that is part of a throttle key.
- The sending of reports and acknowledgements.
- StatsCounters.TimeWindow.DoThreadWork: the two assignments of a roll are one step; given start times and counters without a window are not modelled. `CounterProtocol` has no purging of old buckets.
- ZookeeperWatching.ZookeeperWatcher.StateListener: stopping the client on a new connection has no effect on the watcher's fields and is not modelled.
- Handlers of the watcher do not call back into it, reading a file fails only with a ZooKeeper error, and a first connection that fails raises before the model starts.
- FailureRetry.JobLife: one monitor at a time per job; a crash between deleting a job and its count is not modelled.
- JSON, pickle, YAML, fingerprints, link extraction and domain extraction are given values or any encoding that round-trips.
- The REST service, the Kafka monitor, HyperLogLog and bitmap counters, pipelines, logging and settings.
