/**
 * Request conservation over everything that works on one Redis.  Requests come in
 * as seeds that are fed from outside and as requests that schedulers accept; they
 * go out by the command that returns them to a scheduler, or by a monitor's purge.
 * A crawl's set of fingerprints is forgotten when nobody asked for a while.
 */
module Ledger {
  import opened Options
  import opened Frontier

  datatype Operation =
    | Enqueue(scheduler: nat, entry: Entry, mark: Mark, dontFilter: bool, passesOthers: bool)
    | FindItem(scheduler: nat, entry: Entry)
    | Feed(entry: Entry)
    | Purge(entry: Entry)
    | Forget(spider: string, crawl: string)

  datatype Returned = Returned(scheduler: nat, entry: Entry)

  /**
   * What Redis holds, and everything fed, accepted, returned, purged and merged
   * into an equal entry so far; `firsts` are the marks that passed the filter, and
   * `forgets` the crawls whose marks were forgotten, each as often as it happened.
   */
  datatype State = State(
    stored: set<Entry>, seen: set<Mark>,
    fed: multiset<Entry>, accepted: multiset<Entry>,
    returned: seq<Returned>, purged: multiset<Entry>, merged: multiset<Entry>,
    firsts: multiset<Mark>, forgets: multiset<(string, string)>)

  const EMPTY := State({}, {}, multiset{}, multiset{}, [], multiset{}, multiset{}, multiset{}, multiset{})

  predicate Accepted(seen: set<Mark>, op: Operation) {
    op.Enqueue? && (op.dontFilter || op.mark !in seen) && op.passesOthers
  }

  /** The stored entries after an operation. */
  function StoredAfter(stored: set<Entry>, seen: set<Mark>, op: Operation): set<Entry> {
    if Accepted(seen, op) || op.Feed? then stored + {op.entry}
    else if op.FindItem? || op.Purge? then stored - {op.entry}
    else stored
  }

  /** The marks of all other crawls. */
  function Remembered(seen: set<Mark>, spider: string, crawl: string): set<Mark> {
    set m | m in seen && !(m.spider == spider && m.crawl == crawl)
  }

  /** The recorded fingerprints after an operation: also those of requests that are then turned away. */
  function SeenAfter(seen: set<Mark>, op: Operation): set<Mark> {
    match op
    case Enqueue(_, _, mark, dontFilter, _) => if dontFilter then seen else seen + {mark}
    case Forget(spider, crawl) => Remembered(seen, spider, crawl)
    case _ => seen
  }

  function MergedAfter(s: State, entry: Entry): multiset<Entry> {
    if entry in s.stored then s.merged + multiset{entry} else s.merged
  }

  function Perform(s: State, op: Operation): State {
    var s' := s.(stored := StoredAfter(s.stored, s.seen, op), seen := SeenAfter(s.seen, op));
    match op
    case Enqueue(_, entry, mark, dontFilter, _) =>
      if Accepted(s.seen, op)
      then s'.(accepted := s.accepted + multiset{entry}, merged := MergedAfter(s, entry),
               firsts := if dontFilter then s.firsts else s.firsts + multiset{mark})
      else s'
    case FindItem(scheduler, entry) =>
      if entry in s.stored then s'.(returned := s.returned + [Returned(scheduler, entry)]) else s'
    case Feed(entry) => s'.(fed := s.fed + multiset{entry}, merged := MergedAfter(s, entry))
    case Purge(entry) =>
      if entry in s.stored then s'.(purged := s.purged + multiset{entry}) else s'
    case Forget(spider, crawl) => s'.(forgets := s.forgets + multiset{(spider, crawl)})
  }

  /** The books after a pop. */
  function AfterFind(s: State, scheduler: nat, found: Option<Entry>): State {
    if found.Some? then Perform(s, FindItem(scheduler, found.value)) else s
  }

  function PerformAll(ops: seq<Operation>): State {
    if ops == [] then EMPTY else Perform(PerformAll(ops[..|ops| - 1]), ops[|ops| - 1])
  }

  /** The entries returned, to whichever scheduler. */
  function Entries(returned: seq<Returned>): multiset<Entry> {
    if returned == [] then multiset{}
    else Entries(returned[..|returned| - 1]) + multiset{returned[|returned| - 1].entry}
  }

  /** What came in is what went out, what is still queued, and what was merged. */
  ghost predicate Conserved(s: State) {
    s.fed + s.accepted == Entries(s.returned) + s.purged + multiset(s.stored) + s.merged
  }

  /** A mark passed at most once for every time its crawl was forgotten, and once more if it is remembered. */
  ghost predicate FirstsSeen(s: State) {
    forall m :: s.firsts[m] <= s.forgets[(m.spider, m.crawl)] + if m in s.seen then 1 else 0
  }

  /** The books show what is stored and seen, and they balance. */
  ghost predicate Agrees(s: State, stored: set<Entry>, seen: set<Mark>) {
    s.stored == stored && s.seen == seen && Conserved(s) && FirstsSeen(s)
  }

  /** Storing an entry adds one, or merges with an equal one. */
  lemma StoreConserves(gone: multiset<Entry>, stored: set<Entry>, merged: multiset<Entry>, e: Entry)
    ensures gone + multiset(stored) + merged + multiset{e} ==
            gone + multiset(stored + {e}) + if e in stored then merged + multiset{e} else merged
  {
    if e in stored {
      assert stored + {e} == stored;
    } else {
      assert multiset(stored + {e}) == multiset(stored) + multiset{e};
    }
  }

  lemma TakeConserves(stored: set<Entry>, e: Entry)
    requires e in stored
    ensures multiset(stored) == multiset(stored - {e}) + multiset{e}
  {
  }

  lemma EnqueueConserves(s: State, op: Operation)
    requires Conserved(s) && FirstsSeen(s) && op.Enqueue?
    ensures Conserved(Perform(s, op)) && FirstsSeen(Perform(s, op))
  {
    StoreConserves(Entries(s.returned) + s.purged, s.stored, s.merged, op.entry);
  }

  lemma FeedConserves(s: State, op: Operation)
    requires Conserved(s) && FirstsSeen(s) && op.Feed?
    ensures Conserved(Perform(s, op)) && FirstsSeen(Perform(s, op))
  {
    StoreConserves(Entries(s.returned) + s.purged, s.stored, s.merged, op.entry);
  }

  lemma FindConserves(s: State, op: Operation)
    requires Conserved(s) && FirstsSeen(s) && op.FindItem?
    ensures Conserved(Perform(s, op)) && FirstsSeen(Perform(s, op))
  {
    var s' := Perform(s, op);
    if op.entry in s.stored {
      TakeConserves(s.stored, op.entry);
      assert s'.returned[..|s'.returned| - 1] == s.returned;
      assert Entries(s'.returned) == Entries(s.returned) + multiset{op.entry};
    } else {
      assert s'.stored == s.stored;
    }
  }

  lemma PurgeConserves(s: State, op: Operation)
    requires Conserved(s) && FirstsSeen(s) && op.Purge?
    ensures Conserved(Perform(s, op)) && FirstsSeen(Perform(s, op))
  {
    if op.entry in s.stored {
      TakeConserves(s.stored, op.entry);
    } else {
      assert s.stored - {op.entry} == s.stored;
    }
  }

  /** Whatever is no longer remembered may pass once more. */
  lemma ForgetConserves(s: State, op: Operation)
    requires Conserved(s) && FirstsSeen(s) && op.Forget?
    ensures Conserved(Perform(s, op)) && FirstsSeen(Perform(s, op))
  {
    var s' := Perform(s, op);
    forall m ensures s'.firsts[m] <= s'.forgets[(m.spider, m.crawl)] + if m in s'.seen then 1 else 0 {
      assert s.firsts[m] <= s.forgets[(m.spider, m.crawl)] + if m in s.seen then 1 else 0;
    }
  }

  lemma PerformConserves(s: State, op: Operation)
    requires Conserved(s) && FirstsSeen(s)
    ensures Conserved(Perform(s, op)) && FirstsSeen(Perform(s, op))
  {
    match op
    case Enqueue(_, _, _, _, _) => EnqueueConserves(s, op);
    case FindItem(_, _) => FindConserves(s, op);
    case Feed(_) => FeedConserves(s, op);
    case Purge(_) => PurgeConserves(s, op);
    case Forget(_, _) => ForgetConserves(s, op);
  }

  /**
   * Main result: over any operations of any schedulers, feeders and monitors, what
   * was fed and accepted is what was returned, purged, is still queued, or was
   * merged into an equal entry; so no stored entry goes out twice.  Requests with
   * one mark pass the duplicate filter at most once, and once more for every time
   * the set of their crawl was forgotten.
   */
  lemma {:induction false} RequestsAreConserved(ops: seq<Operation>)
    ensures var s := PerformAll(ops);
            && Conserved(s) && FirstsSeen(s)
            && (forall e :: Entries(s.returned)[e] + s.purged[e] + s.merged[e] <= s.fed[e] + s.accepted[e])
            && forall m :: s.firsts[m] <= s.forgets[(m.spider, m.crawl)] + 1
    decreases |ops|
  {
    var s := PerformAll(ops);
    if ops == [] {
      assert Entries(s.returned) == multiset{};
    } else {
      RequestsAreConserved(ops[..|ops| - 1]);
      PerformConserves(PerformAll(ops[..|ops| - 1]), ops[|ops| - 1]);
    }
    forall e ensures Entries(s.returned)[e] + s.purged[e] + s.merged[e] <= s.fed[e] + s.accepted[e] {
      assert (s.fed + s.accepted)[e] == (Entries(s.returned) + s.purged + multiset(s.stored) + s.merged)[e];
    }
  }

  /** A fingerprint that passes, is forgotten, and passes again. */
  lemma ForgottenPassesAgain(mark: Mark, first: Entry, second: Entry)
    ensures var s1 := Perform(EMPTY, Enqueue(0, first, mark, false, true));
            var s2 := Perform(s1, Forget(mark.spider, mark.crawl));
            s1.firsts[mark] == 1 && Perform(s2, Enqueue(0, second, mark, false, true)).firsts[mark] == 2
  {
  }
}
