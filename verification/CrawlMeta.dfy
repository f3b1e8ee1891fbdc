/** The meta dictionary that travels with every request of a crawl. */
module CrawlMeta {
  import opened Options

  datatype Value = Int(n: int) | Other(data: string) | Null

  type Meta = map<string, Value>

  /** The field, where it is there and a number, the default otherwise. */
  function Number(meta: Meta, key: string, default: int): int {
    if key in meta && meta[key].Int? then meta[key].n else default
  }

  function Priority(meta: Meta): int { Number(meta, "priority", 0) }

  function Depth(meta: Meta): int { Number(meta, "curdepth", 0) }

  function MaxDepth(meta: Meta): int { Number(meta, "maxdepth", 0) }

  function Retries(meta: Meta): int { Number(meta, "retry_times", 0) }

  /** The fields whose numbers the crawler reads without a default, and the types of those it has one for. */
  predicate WellFormed(meta: Meta) {
    && "priority" in meta && meta["priority"].Int?
    && "maxdepth" in meta && meta["maxdepth"].Int?
    && ("curdepth" in meta ==> meta["curdepth"].Int?)
    && ("retry_times" in meta ==> meta["retry_times"].Int?)
  }

  /** What `request_from_feed` adds to a seed. */
  function FromFeed(item: Meta): Meta {
    var item := if "curdepth" in item then item else item["curdepth" := Int(0)];
    if "retry_times" in item then item else item["retry_times" := Int(0)]
  }

  /** A followed link: one deeper, ten less urgent, everything else inherited. */
  function ChildMeta(parent: Meta): Meta {
    parent["priority" := Int(Priority(parent) - 10)]["curdepth" := Int(Depth(parent) + 1)]
  }

  /** A retry: one more attempt, ten less urgent. */
  function RetryMeta(meta: Meta): Meta {
    meta["retry_times" := Int(Retries(meta) + 1)]["priority" := Int(Priority(meta) - 10)]
  }

  datatype Move = Follow | Again

  /** One way a request leads to another: a followed link, or a retry. */
  function Next(maxRetry: int, meta: Meta, move: Move): Option<Meta> {
    match move
    case Follow => if Depth(meta) < MaxDepth(meta) then Some(ChildMeta(meta)) else None
    case Again => if Retries(meta) < maxRetry then Some(RetryMeta(meta)) else None
  }
}
