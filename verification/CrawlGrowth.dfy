/** How far a crawl can grow: what every request in it shares, and that it ends. */
module CrawlGrowth {
  import opened Options
  import opened CrawlMeta
  import CrawlSteps

  /** The request at the end of a path of moves from a seed, if the path can be taken. */
  function Walk(maxRetry: int, seed: Meta, path: seq<Move>): Option<Meta> {
    if path == [] then Some(seed)
    else
      match Walk(maxRetry, seed, path[..|path| - 1])
      case None => None
      case Some(m) => Next(maxRetry, m, path[|path| - 1])
  }

  function Count(path: seq<Move>, move: Move): nat {
    if path == [] then 0
    else Count(path[..|path| - 1], move) + if path[|path| - 1] == move then 1 else 0
  }

  /** The fields that moves change. */
  const MOVING := {"priority", "curdepth", "retry_times"}

  /** One move keeps the sum of the main result below and all fields but its own. */
  lemma MoveConserves(maxRetry: int, m: Meta, move: Move)
    requires WellFormed(m) && Next(maxRetry, m, move).Some?
    ensures var m' := Next(maxRetry, m, move).value;
            && WellFormed(m') && m' - MOVING == m - MOVING
            && Priority(m') + 10 * Depth(m') + 10 * Retries(m') == Priority(m) + 10 * Depth(m) + 10 * Retries(m)
            && Depth(m') == Depth(m) + (if move.Follow? then 1 else 0) && MaxDepth(m') == MaxDepth(m)
            && Retries(m') == Retries(m) + if move.Again? then 1 else 0
  {
    match move
    case Follow => assert ChildMeta(m) - MOVING == m - MOVING;
    case Again => assert RetryMeta(m) - MOVING == m - MOVING;
  }

  /**
   * Main result: along any mix of followed links and retries, priority plus ten
   * for every level and every retry stays what it was at the seed, depth and
   * retries count the moves of each kind and stay within their limits, and every
   * other field is the seed's.
   */
  lemma {:induction false} CrawlConserves(maxRetry: int, seed: Meta, path: seq<Move>)
    requires WellFormed(seed) && Walk(maxRetry, seed, path).Some?
    requires Depth(seed) <= MaxDepth(seed) && Retries(seed) <= maxRetry
    ensures var m := Walk(maxRetry, seed, path).value;
            && WellFormed(m)
            && Priority(m) + 10 * Depth(m) + 10 * Retries(m) == Priority(seed) + 10 * Depth(seed) + 10 * Retries(seed)
            && m - {"priority", "curdepth", "retry_times"} == seed - {"priority", "curdepth", "retry_times"}
            && Depth(m) == Depth(seed) + Count(path, Follow) <= MaxDepth(m) == MaxDepth(seed)
            && Retries(m) == Retries(seed) + Count(path, Again) <= maxRetry
    decreases |path|
  {
    if path == [] {
    } else {
      var before := path[..|path| - 1];
      CrawlConserves(maxRetry, seed, before);
      MoveConserves(maxRetry, Walk(maxRetry, seed, before).value, path[|path| - 1]);
    }
  }

  lemma {:induction false} CountsAddUp(path: seq<Move>)
    ensures Count(path, Follow) + Count(path, Again) == |path|
    decreases |path|
  {
    if path == [] {
    } else {
      CountsAddUp(path[..|path| - 1]);
    }
  }

  /**
   * Retries are shared along a whole path: a request fed with the defaults starts
   * no path longer than its depth limit plus the retry limit, and its priority
   * drops by exactly ten a move.
   */
  lemma RetriesAreShared(maxRetry: int, item: Meta, path: seq<Move>)
    requires WellFormed(item) && "curdepth" !in item && "retry_times" !in item
    requires 0 <= MaxDepth(item) && 0 <= maxRetry
    requires Walk(maxRetry, FromFeed(item), path).Some?
    ensures |path| <= MaxDepth(item) + maxRetry
    ensures var m := Walk(maxRetry, FromFeed(item), path).value;
            && Depth(m) == Count(path, Follow) && Retries(m) == Count(path, Again)
            && Priority(m) == Priority(item) - 10 * |path|
  {
    CrawlConserves(maxRetry, FromFeed(item), path);
    CountsAddUp(path);
  }

  /**
   * No request of a crawl lacks a field that the spider reads without a default, if
   * its seed was fed with the fields of the item and of the link extractor: the
   * depth is filled in when a seed is fed and passed on ever after.
   */
  lemma {:induction false} CrawlNeverLacksField(maxRetry: int, item: Meta, path: seq<Move>, links: seq<string>)
    requires CrawlSteps.ITEM_FIELDS + CrawlSteps.LINK_FIELDS <= item.Keys
    requires Walk(maxRetry, FromFeed(item), path).Some?
    ensures var m := Walk(maxRetry, FromFeed(item), path).value;
            item.Keys + {"curdepth"} <= m.Keys && !CrawlSteps.LacksField(m, links)
    decreases |path|
  {
    if path == [] {
    } else {
      CrawlNeverLacksField(maxRetry, item, path[..|path| - 1], links);
    }
  }

  // ------------------------------------------------------------- termination

  function Power(base: nat, e: nat): nat {
    if e == 0 then 1 else base * Power(base, e - 1)
  }

  function Left(have: int, limit: int): nat {
    if have < limit then limit - have else 0
  }

  /** What one waiting request may still cost: one factor for every level and every retry it has left. */
  function Weight(base: nat, maxRetry: int, meta: Meta): nat {
    Power(base, Left(Depth(meta), MaxDepth(meta)) + Left(Retries(meta), maxRetry))
  }

  function Weights(base: nat, maxRetry: int, pool: seq<Meta>): seq<nat> {
    seq(|pool|, i requires 0 <= i < |pool| => Weight(base, maxRetry, pool[i]))
  }

  function Total(weights: seq<nat>): nat {
    if weights == [] then 0 else weights[0] + Total(weights[1..])
  }

  /** What a pool of waiting requests may still cost. */
  function Potential(base: nat, maxRetry: int, pool: seq<Meta>): nat {
    Total(Weights(base, maxRetry, pool))
  }

  /**
   * What becomes of the request at position i of the pool: its page is crawled and
   * some of its links are accepted by the filters, or its download fails and the
   * retry is accepted or not.
   */
  datatype Event =
    | Crawled(i: nat, kept: nat)
    | Failed(i: nat, requeued: bool)

  function Copies(meta: Meta, n: nat): seq<Meta> {
    seq(n, _ => meta)
  }

  /** The requests that replace the processed one. */
  function Successors(maxRetry: int, meta: Meta, e: Event): seq<Meta> {
    match e
    case Crawled(_, kept) =>
      (match Next(maxRetry, meta, Follow) case None => [] case Some(child) => Copies(child, kept))
    case Failed(_, requeued) =>
      (match Next(maxRetry, meta, Again) case None => [] case Some(retry) => Copies(retry, if requeued then 1 else 0))
  }

  /** A pop may take any waiting request. */
  function Process(maxRetry: int, pool: seq<Meta>, e: Event): seq<Meta>
    requires e.i < |pool|
  {
    pool[..e.i] + pool[e.i + 1..] + Successors(maxRetry, pool[e.i], e)
  }

  /** The pools of a run: each event takes a waiting request of the pool before it, no page has more than b links. */
  ghost predicate IsRun(b: nat, maxRetry: int, pools: seq<seq<Meta>>, events: seq<Event>) {
    && |pools| == |events| + 1
    && forall k :: 0 <= k < |events| ==>
         && events[k].i < |pools[k]|
         && (events[k].Crawled? ==> events[k].kept <= b)
         && pools[k + 1] == Process(maxRetry, pools[k], events[k])
  }

  /** The processed request is gone, and in its place are as many links as were kept, or the one retry. */
  lemma ProcessReplaces(maxRetry: int, pool: seq<Meta>, e: Event, m: Meta)
    requires e.i < |pool|
    ensures multiset(Process(maxRetry, pool, e))[m] == multiset(pool)[m] - (if m == pool[e.i] then 1 else 0)
              + match e
                case Crawled(_, kept) => if Next(maxRetry, pool[e.i], Follow) == Some(m) then kept else 0
                case Failed(_, requeued) => if requeued && Next(maxRetry, pool[e.i], Again) == Some(m) then 1 else 0
  {
    CountInParts(pool, e.i, Successors(maxRetry, pool[e.i], e), m);
    var next := Next(maxRetry, pool[e.i], if e.Crawled? then Follow else Again);
    if next.Some? {
      CountInCopies(next.value, if e.Crawled? then e.kept else if e.requeued then 1 else 0, m);
    }
  }

  lemma CountInParts(pool: seq<Meta>, i: nat, more: seq<Meta>, m: Meta)
    requires i < |pool|
    ensures multiset(pool[..i] + pool[i + 1..] + more)[m] ==
            multiset(pool)[m] - (if m == pool[i] then 1 else 0) + multiset(more)[m]
  {
    assert pool == pool[..i] + [pool[i]] + pool[i + 1..];
  }

  lemma {:induction false} CountInCopies(meta: Meta, n: nat, m: Meta)
    ensures multiset(Copies(meta, n))[m] == if m == meta then n else 0
  {
    if n == 0 {
    } else {
      assert Copies(meta, n) == Copies(meta, n - 1) + [meta];
      CountInCopies(meta, n - 1, m);
    }
  }

  lemma {:induction false} PowerPositive(base: nat, e: nat)
    requires 0 < base
    ensures 0 < Power(base, e)
  {
    if e == 0 {
    } else {
      PowerPositive(base, e - 1);
      assert 0 < base * Power(base, e - 1);
    }
  }

  lemma {:induction false} TotalConcat(xs: seq<nat>, ys: seq<nat>)
    ensures Total(xs + ys) == Total(xs) + Total(ys)
  {
    if xs == [] {
      assert xs + ys == ys;
    } else {
      assert (xs + ys)[1..] == xs[1..] + ys;
      TotalConcat(xs[1..], ys);
    }
  }

  lemma {:induction false} TotalCopies(w: nat, n: nat)
    ensures Total(seq(n, _ => w)) == n * w
  {
    if n == 0 {
    } else {
      assert seq(n, _ => w)[1..] == seq(n - 1, _ => w);
      TotalCopies(w, n - 1);
      assert n * w == w + (n - 1) * w;
    }
  }

  lemma PotentialConcat(base: nat, maxRetry: int, xs: seq<Meta>, ys: seq<Meta>)
    ensures Potential(base, maxRetry, xs + ys) == Potential(base, maxRetry, xs) + Potential(base, maxRetry, ys)
  {
    assert Weights(base, maxRetry, xs + ys) == Weights(base, maxRetry, xs) + Weights(base, maxRetry, ys);
    TotalConcat(Weights(base, maxRetry, xs), Weights(base, maxRetry, ys));
  }

  lemma PotentialCopies(base: nat, maxRetry: int, meta: Meta, n: nat)
    ensures Potential(base, maxRetry, Copies(meta, n)) == n * Weight(base, maxRetry, meta)
  {
    var w := Weight(base, maxRetry, meta);
    assert Weights(base, maxRetry, Copies(meta, n)) == seq(n, _ => w);
    TotalCopies(w, n);
  }

  /** A followed link or a retry weighs one factor less than where it comes from. */
  lemma NextWeighsLess(base: nat, maxRetry: int, meta: Meta, move: Move)
    requires 0 < base && Next(maxRetry, meta, move).Some?
    ensures var w := Weight(base, maxRetry, Next(maxRetry, meta, move).value);
            0 < w && Weight(base, maxRetry, meta) == base * w
  {
    var left := Left(Depth(meta), MaxDepth(meta)) + Left(Retries(meta), maxRetry);
    PowerPositive(base, left - 1);
  }

  lemma FewerThanAll(n: nat, m: nat, w: nat)
    requires n < m && 0 < w
    ensures n * w < m * w
  {
    var k: nat := m - n - 1;
    assert 0 <= k * w;
    assert m * w == n * w + w + k * w;
  }

  /** However many of b links are accepted, the children weigh less than their page, and a retry less than its request. */
  lemma SuccessorsWeighLess(base: nat, b: nat, maxRetry: int, meta: Meta, e: Event)
    requires b < base && 1 < base && (e.Crawled? ==> e.kept <= b)
    ensures Potential(base, maxRetry, Successors(maxRetry, meta, e)) < Weight(base, maxRetry, meta)
  {
    PowerPositive(base, Left(Depth(meta), MaxDepth(meta)) + Left(Retries(meta), maxRetry));
    var move := if e.Crawled? then Follow else Again;
    var next := Next(maxRetry, meta, move);
    if next.Some? {
      var n: nat := if e.Crawled? then e.kept else if e.requeued then 1 else 0;
      NextWeighsLess(base, maxRetry, meta, move);
      PotentialCopies(base, maxRetry, next.value, n);
      FewerThanAll(n, base, Weight(base, maxRetry, next.value));
    }
  }

  lemma ProcessDecreases(base: nat, b: nat, maxRetry: int, pool: seq<Meta>, e: Event)
    requires b < base && 1 < base && e.i < |pool| && (e.Crawled? ==> e.kept <= b)
    ensures Potential(base, maxRetry, Process(maxRetry, pool, e)) < Potential(base, maxRetry, pool)
  {
    var before, meta, after := pool[..e.i], pool[e.i], pool[e.i + 1..];
    assert pool == before + [meta] + after;
    PotentialConcat(base, maxRetry, before + [meta], after);
    PotentialConcat(base, maxRetry, before, [meta]);
    PotentialConcat(base, maxRetry, before, after);
    PotentialConcat(base, maxRetry, before + after, Successors(maxRetry, meta, e));
    assert Weights(base, maxRetry, [meta]) == [Weight(base, maxRetry, meta)];
    SuccessorsWeighLess(base, b, maxRetry, meta, e);
  }

  /**
   * Main result: under any order of pops, any failures and any filtering, a crawl
   * of pages with at most b links processes at most as many requests as the
   * potential of its seeds, for any base above b and above 1.
   */
  lemma {:induction false} CrawlTerminates(base: nat, b: nat, maxRetry: int, pools: seq<seq<Meta>>, events: seq<Event>)
    requires b < base && 1 < base && IsRun(b, maxRetry, pools, events)
    ensures |events| + Potential(base, maxRetry, pools[|events|]) <= Potential(base, maxRetry, pools[0])
    decreases |events|
  {
    if events == [] {
    } else {
      var n := |events| - 1;
      CrawlTerminates(base, b, maxRetry, pools[..n + 1], events[..n]);
      ProcessDecreases(base, b, maxRetry, pools[n], events[n]);
    }
  }

  lemma TimesAtLeast(n: nat, w: nat)
    requires 0 < n
    ensures w <= n * w
  {
    assert n * w == w + (n - 1) * w;
  }

  lemma {:induction false} PowerGrows(base: nat, e: nat, f: nat)
    requires 0 < base && e <= f
    ensures Power(base, e) <= Power(base, f)
    decreases f
  {
    if e < f {
      PowerGrows(base, e, f - 1);
      PowerPositive(base, f - 1);
      TimesAtLeast(base, Power(base, f - 1));
    }
  }

  lemma {:induction false} TotalAtMost(xs: seq<nat>, w: nat)
    requires forall i :: 0 <= i < |xs| ==> xs[i] <= w
    ensures Total(xs) <= |xs| * w
  {
    if xs == [] {
    } else {
      TotalAtMost(xs[1..], w);
      assert |xs| * w == w + (|xs| - 1) * w;
    }
  }

  /**
   * So a crawl of pages with fewer links than the base, whose seeds are fed with
   * the defaults, processes at most (base to the power of depth limit plus retry
   * limit) requests per seed.
   */
  lemma SeedsTerminate(
      base: nat, b: nat, maxDepth: nat, maxRetry: nat, seeds: seq<Meta>, pools: seq<seq<Meta>>, events: seq<Event>)
    requires b < base && 1 < base && IsRun(b, maxRetry, pools, events)
    requires |pools[0]| == |seeds|
    requires forall i :: 0 <= i < |seeds| ==>
               && "curdepth" !in seeds[i] && "retry_times" !in seeds[i] && MaxDepth(seeds[i]) <= maxDepth
               && pools[0][i] == FromFeed(seeds[i])
    ensures |events| <= |seeds| * Power(base, maxDepth + maxRetry)
  {
    CrawlTerminates(base, b, maxRetry, pools, events);
    var weights := Weights(base, maxRetry, pools[0]);
    forall i | 0 <= i < |weights| ensures weights[i] <= Power(base, maxDepth + maxRetry) {
      var m := pools[0][i];
      PowerGrows(base, Left(Depth(m), MaxDepth(m)) + Left(Retries(m), maxRetry), maxDepth + maxRetry);
    }
    TotalAtMost(weights, Power(base, maxDepth + maxRetry));
  }

  // ---------------------------------------- the base b + 1, and pages without links

  /** No run from this pool is longer than its potential to the base b + 1. */
  ghost predicate PlainBaseBounds(b: nat, maxRetry: int, pool: seq<Meta>) {
    forall pools, events :: IsRun(b, maxRetry, pools, events) && pools[0] == pool ==>
      |events| <= Potential(b + 1, maxRetry, pool)
  }

  /** Nothing in the pool can be retried. */
  predicate Exhausted(maxRetry: int, pool: seq<Meta>) {
    forall i :: 0 <= i < |pool| ==> maxRetry <= Retries(pool[i])
  }

  lemma {:induction false} PowerOfOne(e: nat)
    ensures Power(1, e) == 1
  {
    if e == 0 {
    } else {
      PowerOfOne(e - 1);
    }
  }

  /** To the base 1 every request weighs one. */
  lemma PotentialIsSize(maxRetry: int, pool: seq<Meta>)
    ensures Potential(1, maxRetry, pool) == |pool|
  {
    forall i | 0 <= i < |pool| ensures Weights(1, maxRetry, pool)[i] == 1 {
      PowerOfOne(Left(Depth(pool[i]), MaxDepth(pool[i])) + Left(Retries(pool[i]), maxRetry));
    }
    assert Weights(1, maxRetry, pool) == seq(|pool|, _ => 1);
    TotalCopies(1, |pool|);
  }

  /** With neither links nor retries a pool only shrinks. */
  lemma {:induction false} ExhaustedShrinks(maxRetry: int, pools: seq<seq<Meta>>, events: seq<Event>)
    requires IsRun(0, maxRetry, pools, events) && Exhausted(maxRetry, pools[0])
    ensures Exhausted(maxRetry, pools[|events|]) && |events| + |pools[|events|]| == |pools[0]|
    decreases |events|
  {
    if events == [] {
    } else {
      var n := |events| - 1;
      ExhaustedShrinks(maxRetry, pools[..n + 1], events[..n]);
      assert Successors(maxRetry, pools[n][events[n].i], events[n]) == [];
    }
  }

  /** Everything in a pool can fail for good, one after the other. */
  lemma {:induction false} AllFail(b: nat, maxRetry: int, pool: seq<Meta>)
    returns (pools: seq<seq<Meta>>, events: seq<Event>)
    ensures IsRun(b, maxRetry, pools, events) && pools[0] == pool && |events| == |pool|
    decreases |pool|
  {
    if pool == [] {
      pools, events := [pool], [];
    } else {
      var e := Failed(0, false);
      assert Process(maxRetry, pool, e) == pool[1..];
      var rest, more := AllFail(b, maxRetry, pool[1..]);
      pools, events := [pool] + rest, [e] + more;
      FirstThenRest(b, maxRetry, pool, e, rest, more);
    }
  }

  lemma FirstThenRest(b: nat, maxRetry: int, pool: seq<Meta>, e: Event, rest: seq<seq<Meta>>, more: seq<Event>)
    requires IsRun(b, maxRetry, rest, more) && e.i < |pool| && (e.Crawled? ==> e.kept <= b)
    requires rest[0] == Process(maxRetry, pool, e)
    ensures IsRun(b, maxRetry, [pool] + rest, [e] + more)
  {
    var pools, events := [pool] + rest, [e] + more;
    forall k | 0 <= k < |events|
      ensures events[k].i < |pools[k]| && (events[k].Crawled? ==> events[k].kept <= b)
      ensures pools[k + 1] == Process(maxRetry, pools[k], events[k])
    {
      assert pools[k + 1] == rest[k];
      assert k != 0 ==> pools[k] == rest[k - 1] && events[k] == more[k - 1];
    }
  }

  /** One retry, and then everything fails: one event more than there are requests. */
  lemma OneRetryMore(b: nat, maxRetry: int, pool: seq<Meta>, i: nat)
    returns (pools: seq<seq<Meta>>, events: seq<Event>)
    requires i < |pool| && Retries(pool[i]) < maxRetry
    ensures IsRun(b, maxRetry, pools, events) && pools[0] == pool && |events| == |pool| + 1
  {
    var e := Failed(i, true);
    var rest, more := AllFail(b, maxRetry, Process(maxRetry, pool, e));
    pools, events := [pool] + rest, [e] + more;
    FirstThenRest(b, maxRetry, pool, e, rest, more);
  }

  /**
   * Main result: the base b + 1 alone bounds every run from a pool exactly when
   * pages may have a link or nothing in the pool can be retried: without links, a
   * retry is the one request too many.
   */
  lemma PlainBaseBoundsIffLinksOrExhausted(b: nat, maxRetry: int, pool: seq<Meta>)
    ensures PlainBaseBounds(b, maxRetry, pool) <==> 1 <= b || Exhausted(maxRetry, pool)
  {
    if 1 <= b || Exhausted(maxRetry, pool) {
      forall pools, events | IsRun(b, maxRetry, pools, events) && pools[0] == pool
        ensures |events| <= Potential(b + 1, maxRetry, pool)
      {
        if 1 <= b {
          CrawlTerminates(b + 1, b, maxRetry, pools, events);
        } else {
          PotentialIsSize(maxRetry, pool);
          ExhaustedShrinks(maxRetry, pools, events);
        }
      }
    } else {
      var i :| 0 <= i < |pool| && Retries(pool[i]) < maxRetry;
      var pools, events := OneRetryMore(b, maxRetry, pool, i);
      PotentialIsSize(maxRetry, pool);
      assert !PlainBaseBounds(b, maxRetry, pool);
    }
  }
}
