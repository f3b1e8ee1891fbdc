/**
 * The code that makes new requests: the link spider, the retry middleware and
 * the meta passthrough, which assign to the requests' meta in place.
 */
module CrawlSteps {
  import opened Options
  import opened CrawlMeta

  class Request {
    var url: string
    var meta: Meta
    var dontFilter: bool
    /** The `User-Agent` header, where the crawl sets one. */
    var userAgent: Option<Value>

    constructor (url: string)
      ensures this.url == url && meta == map[] && !dontFilter && userAgent == None
    {
      this.url, meta, dontFilter, userAgent := url, map[], false, None;
    }
  }

  /** A generator either runs to its end or stops at a missing key. */
  datatype Outcome = Done | KeyError

  /** Requests that differ as objects. */
  ghost predicate Distinct(requests: seq<Request>) {
    forall i, j :: 0 <= i < j < |requests| ==> requests[i] != requests[j]
  }

  predicate Newline(c: char) { c == '\n' }

  /** `url.replace('\n', '')`. */
  function Cleaned(url: string): (r: string)
    ensures '\n' !in r
  {
    if url == "" then ""
    else if Newline(url[0]) then Cleaned(url[1..])
    else [url[0]] + Cleaned(url[1..])
  }

  lemma CleanedInFront(c: char, rest: string)
    ensures Cleaned([c] + rest) == (if c == '\n' then "" else [c]) + Cleaned(rest)
  {
    assert ([c] + rest)[1..] == rest;
  }

  /** Cleaning goes part by part. */
  lemma {:induction false} CleanedJoins(a: string, b: string)
    ensures Cleaned(a + b) == Cleaned(a) + Cleaned(b)
  {
    if a == "" {
      assert a + b == b;
    } else {
      var c, rest := a[0], a[1..];
      CleanedJoins(rest, b);
      CleanedInFront(c, rest);
      CleanedInFront(c, rest + b);
      assert a == [c] + rest && a + b == [c] + (rest + b);
    }
  }

  lemma {:induction false} CleanedKeepsPlain(url: string)
    requires '\n' !in url
    ensures Cleaned(url) == url
  {
    if url == "" {
    } else {
      CleanedKeepsPlain(url[1..]);
      assert url == [url[0]] + url[1..];
    }
  }

  /** A newline is all that goes from a URL, wherever it stands. */
  lemma CleanedDropsNewline(before: string, after: string)
    ensures Cleaned(before + "\n" + after) == Cleaned(before) + Cleaned(after)
    ensures '\n' !in before ==> Cleaned(before) == before
  {
    CleanedJoins(before + "\n", after);
    CleanedJoins(before, "\n");
    assert Cleaned("\n") == "";
    assert Cleaned(before) + "" == Cleaned(before);
    if '\n' !in before {
      CleanedKeepsPlain(before);
    }
  }

  /**
   * `request_from_feed`: a seed becomes a request with the defaults filled in.
   * A URL that `Request` does not accept gets a scheme.
   */
  method RequestFromFeed(url: string, accepted: bool, item: Meta) returns (request: Request)
    ensures fresh(request) && request.meta == FromFeed(item) && !request.dontFilter
    ensures request.meta.Keys == item.Keys + {"curdepth", "retry_times"}
    ensures forall k :: k in request.meta ==> request.meta[k] == if k in item then item[k] else Int(0)
    ensures request.url == if accepted then url else "http://" + url
  {
    if accepted {
      request := new Request(url);
    } else {
      request := new Request("http://" + url);
    }
    var fed := item;
    if "curdepth" !in fed {
      fed := fed["curdepth" := Int(0)];
    }
    if "retry_times" !in fed {
      fed := fed["retry_times" := Int(0)];
    }
    var left := fed.Keys;
    while left != {}
      invariant left <= fed.Keys && fresh(request) && !request.dontFilter
      invariant request.url == if accepted then url else "http://" + url
      invariant request.meta == fed - left
      decreases left
    {
      var key :| key in left;
      left := left - {key};
      request.meta := request.meta[key := fed[key]];
    }
    assert fed - {} == fed;
  }

  /** The fields of the meta that the scraped item takes, and those the link extractor takes. */
  const ITEM_FIELDS := {"appid", "crawlid", "attrs"}
  const LINK_FIELDS := {"allowed_domains", "allow_regex", "deny_regex", "deny_extensions"}

  /** What the spider passes on of a page: the crawl's fields, and the links it followed. */
  datatype RawResponse = RawResponse(fields: Meta, links: seq<string>)

  /** The page is not too deep: its links are followed. */
  predicate Spiders(meta: Meta) {
    Depth(meta) < MaxDepth(meta)
  }

  /** The fields that are read without a default; `curdepth` has one when it is compared, not when it is passed on. */
  predicate LacksField(meta: Meta, links: seq<string>) {
    || !(ITEM_FIELDS <= meta.Keys)
    || (Spiders(meta) && (!(LINK_FIELDS <= meta.Keys) || ("curdepth" !in meta && links != [])))
  }

  /** A request for a link of a page with this meta, before the meta is passed through. */
  ghost predicate LinkRequest(r: Request, meta: Meta, link: string)
    reads r
  {
    && r.url == Cleaned(link) && !r.dontFilter
    && r.userAgent == (if "useragent" in meta && meta["useragent"] != Null then Some(meta["useragent"]) else None)
    && "priority" in meta && meta["priority"].Int? && "curdepth" in meta && meta["curdepth"].Int?
    && r.meta == map["priority" := Int(meta["priority"].n - 10), "curdepth" := Int(meta["curdepth"].n + 1)]
  }

  /** `LinkSpider.parse`: one request per link while the page is not too deep, then the scraped item. */
  method Parse(meta: Meta, links: seq<string>) returns (outcome: Outcome, requests: seq<Request>, item: Option<RawResponse>)
    requires WellFormed(meta)
    ensures fresh(requests) && Distinct(requests)
    ensures outcome.KeyError? <==> LacksField(meta, links)
    ensures var depth := if "curdepth" in meta then meta["curdepth"].n else 0;
            && (outcome.KeyError? <==>
                  || !({"appid", "crawlid", "attrs"} <= meta.Keys)
                  || (depth < meta["maxdepth"].n
                      && (!({"allowed_domains", "allow_regex", "deny_regex", "deny_extensions"} <= meta.Keys)
                          || ("curdepth" !in meta && links != []))))
            && |requests| == if depth < meta["maxdepth"].n && outcome.Done? then |links| else 0
    ensures forall i :: 0 <= i < |requests| ==> LinkRequest(requests[i], meta, links[i])
    ensures item.None? <==> outcome.KeyError?
    ensures item.Some? ==>
              && item.value.fields == (map k | k in {"appid", "crawlid", "attrs"} && k in meta :: meta[k])
              && |item.value.links| == |requests|
              && forall i :: 0 <= i < |requests| ==> item.value.links[i] == requests[i].url
  {
    outcome, requests, item := Done, [], None;
    var curDepth := 0;
    if "curdepth" in meta {
      curDepth := meta["curdepth"].n;
    }
    if !(ITEM_FIELDS <= meta.Keys) {
      return KeyError, [], None;
    }
    var fields: Meta := map k | k in ITEM_FIELDS && k in meta :: meta[k];
    var followed: seq<string> := [];
    if curDepth < meta["maxdepth"].n {
      if !(LINK_FIELDS <= meta.Keys) {
        return KeyError, [], None;
      }
      for i := 0 to |links|
        invariant fresh(requests) && Distinct(requests) && |requests| == i
        invariant i != 0 ==> "curdepth" in meta
        invariant |followed| == i && forall k :: 0 <= k < i ==> followed[k] == Cleaned(links[k])
        invariant forall k :: 0 <= k < i ==> LinkRequest(requests[k], meta, links[k])
      {
        var url := Cleaned(links[i]);
        followed := followed + [url];
        var request := new Request(url);
        request.meta := request.meta["priority" := Int(meta["priority"].n - 10)];
        if "curdepth" !in meta {
          return KeyError, [], None;
        }
        request.meta := request.meta["curdepth" := Int(meta["curdepth"].n + 1)];
        if "useragent" in meta && meta["useragent"] != Null {
          request.userAgent := Some(meta["useragent"]);
        }
        requests := requests + [request];
      }
    }
    item := Some(RawResponse(fields, followed));
  }

  /** `RedisRetryMiddleware._retry`: a copy, until the retries are used up. */
  method Retry(request: Request, maxRetry: int) returns (retry: Option<Request>)
    requires WellFormed(request.meta)
    ensures Next(maxRetry, request.meta, Again) == if retry.Some? then Some(retry.value.meta) else None
    ensures var retries := if "retry_times" in request.meta then request.meta["retry_times"].n else 0;
            && (retry.Some? <==> retries < maxRetry)
            && (retry.Some? ==>
                  && fresh(retry.value) && retry.value.url == request.url && retry.value.dontFilter
                  && retry.value.userAgent == request.userAgent
                  && retry.value.meta ==
                     request.meta["retry_times" := Int(retries + 1)]["priority" := Int(request.meta["priority"].n - 10)])
  {
    retry := None;
    var retries := 1;
    if "retry_times" in request.meta {
      retries := request.meta["retry_times"].n + 1;
    }
    if retries <= maxRetry {
      var copy := new Request(request.url);
      copy.meta, copy.userAgent := request.meta, request.userAgent;
      copy.meta := copy.meta["retry_times" := Int(retries)];
      copy.dontFilter := true;
      copy.meta := copy.meta["priority" := Int(copy.meta["priority"].n - 10)];
      retry := Some(copy);
    }
  }

  /**
   * `process_spider_output`: every request gets each field of the response's meta
   * that it does not have yet; nothing else of it changes.
   */
  method PassThrough(meta: Meta, requests: seq<Request>)
    requires Distinct(requests)
    modifies set r | r in requests
    ensures forall i :: 0 <= i < |requests| ==>
              && requests[i].meta == meta + old(requests[i].meta)
              && requests[i].url == old(requests[i].url) && requests[i].dontFilter == old(requests[i].dontFilter)
              && requests[i].userAgent == old(requests[i].userAgent)
  {
    for i := 0 to |requests|
      invariant forall k :: 0 <= k < i ==> requests[k].meta == meta + old(requests[k].meta)
      invariant forall k :: i <= k < |requests| ==> requests[k].meta == old(requests[k].meta)
      invariant forall k :: 0 <= k < |requests| ==>
                  && requests[k].url == old(requests[k].url) && requests[k].dontFilter == old(requests[k].dontFilter)
                  && requests[k].userAgent == old(requests[k].userAgent)
    {
      InheritMeta(meta, requests[i]);
    }
  }

  /** The inner loop: over the keys of the response's meta, in any order. */
  method InheritMeta(meta: Meta, request: Request)
    modifies request`meta
    ensures request.meta == meta + old(request.meta)
  {
    var left := meta.Keys;
    while left != {}
      invariant left <= meta.Keys
      invariant request.meta == (meta - left) + old(request.meta)
      decreases left
    {
      var key :| key in left;
      left := left - {key};
      if key !in request.meta {
        request.meta := request.meta[key := meta[key]];
      }
    }
    assert meta - {} == meta;
  }

  /** Parsing a page and passing its meta through gives each link the child's meta. */
  method FollowLinks(meta: Meta, links: seq<string>) returns (outcome: Outcome, requests: seq<Request>)
    requires WellFormed(meta)
    ensures fresh(requests) && Distinct(requests)
    ensures outcome.KeyError? <==> LacksField(meta, links)
    ensures outcome.Done? ==> |requests| == if Next(0, meta, Follow).Some? then |links| else 0
    ensures outcome.KeyError? ==> requests == []
    ensures forall i :: 0 <= i < |requests| ==>
              && requests[i].url == Cleaned(links[i]) && !requests[i].dontFilter
              && requests[i].userAgent == (if "useragent" in meta && meta["useragent"] != Null then Some(meta["useragent"]) else None)
              && Some(requests[i].meta) == Next(0, meta, Follow)
              && "curdepth" in meta
              && requests[i].meta ==
                 meta["priority" := Int(meta["priority"].n - 10)]["curdepth" := Int(meta["curdepth"].n + 1)]
  {
    var item: Option<RawResponse>;
    outcome, requests, item := Parse(meta, links);
    ghost var child := ChildMeta(meta);
    forall i | 0 <= i < |requests| ensures meta + requests[i].meta == child && "curdepth" in meta {
      assert LinkRequest(requests[i], meta, links[i]);
    }
    PassThrough(meta, requests);
  }
}
