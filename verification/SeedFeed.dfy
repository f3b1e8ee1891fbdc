/** The handler that feeds seeds from outside into the queues. */
module SeedFeed {
  import opened Frontier
  import opened RedisStore
  import Ledger

  class ScraperHandler {
    const store: Store

    constructor (store: Store)
      ensures this.store == store
    {
      this.store := store;
    }

    /** `handle`: the seed is stored as it is, whatever the blacklist says; an expiring crawl gets a timeout. */
    method Handle(spider: string, domain: string, item: Item)
      requires store.Valid() && store.Agrees()
      modifies store`scores, store`timeouts, store`ledger
      ensures store.Valid() && store.Agrees()
      ensures store.scores == old(store.scores)[Entry(QueueKey(spider, domain), item) := -item.priority]
      ensures store.timeouts == if item.expires != 0
                                then old(store.timeouts)[TimeoutKey(spider, item.id) := item.expires as real]
                                else old(store.timeouts)
      ensures store.ledger == Ledger.Perform(old(store.ledger), Ledger.Feed(Entry(QueueKey(spider, domain), item)))
      ensures store.ledger.fed == old(store.ledger).fed + multiset{Entry(QueueKey(spider, domain), item)}
    {
      var key := QueueKey(spider, domain);
      store.ZAdd(key, item, -item.priority);
      store.Record(Ledger.Feed(Entry(key, item)), old(store.scores.Keys), store.seen);
      if item.expires != 0 {
        store.timeouts := store.timeouts[TimeoutKey(spider, item.id) := item.expires as real];
      }
    }
  }
}
