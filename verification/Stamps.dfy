/**
 * The one kind of Redis sorted set the throttle and the counters use: every
 * member is a time stamp that is also its own score (`ZADD key {t: t}`).  Redis
 * keeps such a set in ascending order, so it is an ascending sequence here.
 */
module Stamps {

  ghost predicate Ascending(s: seq<real>) {
    forall i, j :: 0 <= i < j < |s| ==> s[i] < s[j]
  }

  /** `ZADD key {x: x}`: a stamp that is already there is merged. */
  function Insert(s: seq<real>, x: real): seq<real> {
    if s == [] then [x]
    else if x < s[0] then [x] + s
    else if x == s[0] then s
    else [s[0]] + Insert(s[1..], x)
  }

  /** `ZREMRANGEBYSCORE key -inf bound`. */
  function RemoveUpTo(s: seq<real>, bound: real): seq<real> {
    if s == [] then []
    else if s[0] <= bound then RemoveUpTo(s[1..], bound)
    else [s[0]] + RemoveUpTo(s[1..], bound)
  }

  /** How many stamps lie in the half-open interval (lo, hi]. */
  function CountIn(s: seq<real>, lo: real, hi: real): nat {
    if s == [] then 0
    else (if lo < s[0] <= hi then 1 else 0) + CountIn(s[1..], lo, hi)
  }

  /** How many stamps are newer than lo. */
  function CountAbove(s: seq<real>, lo: real): nat {
    if s == [] then 0
    else (if lo < s[0] then 1 else 0) + CountAbove(s[1..], lo)
  }

  /** No half-open interval of length `window` holds more than `limit` stamps. */
  ghost predicate WindowBounded(s: seq<real>, limit: nat, window: real) {
    forall lo, hi :: hi == lo + window ==> CountIn(s, lo, hi) <= limit
  }

  /** Any stamp and the one `limit` places later are at least `window` apart. */
  ghost predicate Spaced(s: seq<real>, limit: nat, window: real) {
    forall i, j :: 0 <= i && j == i + limit && j < |s| ==> s[i] + window <= s[j]
  }

  lemma {:induction false} InsertNewest(s: seq<real>, x: real)
    requires forall i :: 0 <= i < |s| ==> s[i] < x
    ensures Insert(s, x) == s + [x]
  {
    if s == [] {
    } else {
      InsertNewest(s[1..], x);
    }
  }

  lemma {:induction false} RemoveNothing(s: seq<real>, bound: real)
    requires forall i :: 0 <= i < |s| ==> bound < s[i]
    ensures RemoveUpTo(s, bound) == s
  {
    if s == [] {
    } else {
      RemoveNothing(s[1..], bound);
    }
  }

  /** Removing old stamps from an ascending set drops a prefix, and only old stamps. */
  lemma {:induction false} RemoveUpToDropsPrefix(s: seq<real>, bound: real)
    requires Ascending(s)
    ensures var kept := RemoveUpTo(s, bound);
            && |kept| <= |s|
            && kept == s[|s| - |kept|..]
            && (forall i :: 0 <= i < |s| - |kept| ==> s[i] <= bound)
            && (forall i :: 0 <= i < |kept| ==> bound < kept[i])
  {
    if s == [] {
    } else if bound < s[0] {
      RemoveNothing(s, bound);
    } else {
      var rest := s[1..];
      RemoveUpToDropsPrefix(rest, bound);
      var kept := RemoveUpTo(rest, bound);
      assert kept == rest[|rest| - |kept|..] == s[|s| - |kept|..];
      forall i | 0 <= i < |s| - |kept| ensures s[i] <= bound {
        assert i == 0 || s[i] == rest[i - 1];
      }
    }
  }

  lemma {:induction false} CountNone(s: seq<real>, lo: real, hi: real)
    requires forall i :: 0 <= i < |s| ==> !(lo < s[i] <= hi)
    ensures CountIn(s, lo, hi) == 0
  {
    if s == [] {
    } else {
      CountNone(s[1..], lo, hi);
    }
  }

  lemma {:induction false} CountInAtMost(s: seq<real>, lo: real, hi: real, k: nat)
    requires forall i :: k <= i < |s| ==> hi < s[i]
    ensures CountIn(s, lo, hi) <= k
  {
    if k == 0 {
      CountNone(s, lo, hi);
    } else if s != [] {
      CountInAtMost(s[1..], lo, hi, k - 1);
    }
  }

  lemma {:induction false} SpacedBounds(s: seq<real>, limit: nat, window: real, lo: real)
    requires Ascending(s) && Spaced(s, limit, window)
    ensures CountIn(s, lo, lo + window) <= limit
  {
    if s == [] {
    } else if s[0] <= lo {
      assert Spaced(s[1..], limit, window) by {
        forall i, j | 0 <= i && j == i + limit && j < |s[1..]|
          ensures s[1..][i] + window <= s[1..][j]
        {
          assert s[i + 1] + window <= s[j + 1];
        }
      }
      SpacedBounds(s[1..], limit, window, lo);
    } else {
      forall i | limit <= i < |s| ensures lo + window < s[i] {
        assert s[0] + window <= s[limit] <= s[i];
      }
      CountInAtMost(s, lo, lo + window, limit);
    }
  }

  /**
   * Bounding every window and spacing the stamps say the same of an ascending
   * history: no window of that length holds more than `limit` stamps exactly
   * when any stamp and the one `limit` places later are a whole window apart.
   */
  lemma {:induction false} WindowBoundIsSpacing(s: seq<real>, limit: nat, window: real)
    requires Ascending(s) && 0.0 < window
    ensures WindowBounded(s, limit, window) <==> Spaced(s, limit, window)
  {
    if Spaced(s, limit, window) {
      forall lo, hi | hi == lo + window ensures CountIn(s, lo, hi) <= limit {
        SpacedBounds(s, limit, window, lo);
      }
    }
    if WindowBounded(s, limit, window) {
      forall i, j | 0 <= i && j == i + limit && j < |s|
        ensures s[i] + window <= s[j]
      {
        if s[j] < s[i] + window {
          CountAtLeast(s, s[j] - window, s[j], i, j + 1);
        }
      }
    }
  }

  lemma {:induction false} CountAtLeast(s: seq<real>, lo: real, hi: real, from: nat, to: nat)
    requires from <= to <= |s|
    requires forall k :: from <= k < to ==> lo < s[k] <= hi
    ensures to - from <= CountIn(s, lo, hi)
  {
    if s == [] || to == 0 {
    } else if from == 0 {
      CountAtLeast(s[1..], lo, hi, 0, to - 1);
    } else {
      CountAtLeast(s[1..], lo, hi, from - 1, to - 1);
    }
  }

  /** A suffix that holds every stamp newer than lo, and no older one, counts them. */
  lemma {:induction false} SuffixCountsAbove(s: seq<real>, from: nat, lo: real)
    requires from <= |s|
    requires forall i :: 0 <= i < from ==> s[i] <= lo
    requires forall i :: from <= i < |s| ==> lo < s[i]
    ensures CountAbove(s, lo) == |s| - from
  {
    if s == [] {
    } else if from == 0 {
      SuffixCountsAbove(s[1..], 0, lo);
    } else {
      SuffixCountsAbove(s[1..], from - 1, lo);
    }
  }

  lemma {:induction false} CountSnoc(s: seq<real>, x: real, lo: real, hi: real)
    ensures CountIn(s + [x], lo, hi) == CountIn(s, lo, hi) + if lo < x <= hi then 1 else 0
  {
    if s == [] {
      assert s + [x] == [x];
    } else {
      CountSnoc(s[1..], x, lo, hi);
      assert (s + [x])[1..] == s[1..] + [x];
    }
  }

  /** A set of positions, all of whose stamps lie in an interval, is no larger than the count. */
  lemma {:induction false} PositionsCounted(s: seq<real>, positions: set<nat>, lo: real, hi: real)
    requires forall k :: k in positions ==> k < |s| && lo < s[k] <= hi
    ensures |positions| <= CountIn(s, lo, hi)
  {
    if s == [] {
      assert positions == {};
    } else {
      var n := |s| - 1;
      assert s == s[..n] + [s[n]];
      CountSnoc(s[..n], s[n], lo, hi);
      PositionsCounted(s[..n], positions - {n}, lo, hi);
      assert n in positions ==> |positions - {n}| == |positions| - 1;
      assert n !in positions ==> positions - {n} == positions;
    }
  }

  lemma {:induction false} CountAboveSnoc(s: seq<real>, x: real, lo: real)
    ensures CountAbove(s + [x], lo) == CountAbove(s, lo) + if lo < x then 1 else 0
  {
    if s == [] {
      assert s + [x] == [x];
    } else {
      CountAboveSnoc(s[1..], x, lo);
      assert (s + [x])[1..] == s[1..] + [x];
    }
  }

  /** The positions of an initial part, and the last one if its stamp lies there too. */
  lemma PositionsSnoc(s: seq<real>, lo: real, hi: real)
    requires s != []
    ensures var (n, before) := (|s| - 1, s[..|s| - 1]);
            && (set i: nat | i < |s| && lo < s[i] <= hi)
               == (set i: nat | i < |before| && lo < before[i] <= hi) + (if lo < s[n] <= hi then {n} else {})
            && n !in (set i: nat | i < |before| && lo < before[i] <= hi)
  {
  }

  lemma PositionsAboveSnoc(s: seq<real>, lo: real)
    requires s != []
    ensures var (n, before) := (|s| - 1, s[..|s| - 1]);
            && (set i: nat | i < |s| && lo < s[i])
               == (set i: nat | i < |before| && lo < before[i]) + (if lo < s[n] then {n} else {})
            && n !in (set i: nat | i < |before| && lo < before[i])
  {
  }

  /** The count in an interval is the number of positions whose stamps lie there. */
  lemma {:induction false} CountInIsPositions(s: seq<real>, lo: real, hi: real)
    ensures CountIn(s, lo, hi) == |set i: nat | i < |s| && lo < s[i] <= hi|
    decreases |s|
  {
    if s == [] {
    } else {
      var n := |s| - 1;
      CountInIsPositions(s[..n], lo, hi);
      assert s == s[..n] + [s[n]];
      CountSnoc(s[..n], s[n], lo, hi);
      PositionsSnoc(s, lo, hi);
    }
  }

  lemma {:induction false} CountAboveIsPositions(s: seq<real>, lo: real)
    ensures CountAbove(s, lo) == |set i: nat | i < |s| && lo < s[i]|
    decreases |s|
  {
    if s == [] {
    } else {
      var n := |s| - 1;
      CountAboveIsPositions(s[..n], lo);
      assert s == s[..n] + [s[n]];
      CountAboveSnoc(s[..n], s[n], lo);
      PositionsAboveSnoc(s, lo);
    }
  }
}
