/** The FIFO queue, the stack and the priority queue kept in Redis. */
module RedisQueues {
  import opened Options
  import opened Codec
  import opened SortedSet

  /** Redis data that is absent or empty counts as nothing. */
  function Decoded<T(!new)>(codec: Codec<T>, data: string): Option<T> {
    if data == "" then None else Some(codec.decode(data))
  }

  /** `RPOP`: the item, if any, and the list that is left. */
  function PopRight<T(!new)>(codec: Codec<T>, data: seq<string>): (Option<T>, seq<string>) {
    if data == [] then (None, [])
    else (Decoded(codec, data[|data| - 1]), data[..|data| - 1])
  }

  /** `LPOP`. */
  function PopLeft<T(!new)>(codec: Codec<T>, data: seq<string>): (Option<T>, seq<string>) {
    if data == [] then (None, []) else (Decoded(codec, data[0]), data[1..])
  }

  /** A Redis list, left end first, that is filled on the left and emptied on the right. */
  class RedisQueue<T(!new)> {
    const codec: Codec<T>
    var data: seq<string>

    constructor (codec: Codec<T>)
      ensures this.codec == codec && data == []
    {
      this.codec := codec;
      data := [];
    }

    method Push(item: T)
      modifies this
      ensures data == [codec.encode(item)] + old(data)
    {
      data := [codec.encode(item)] + data;
    }

    /**
     * `BRPOP` if there is a timeout, `RPOP` if not.  A blocking pop of an empty list
     * waits, and takes what another client pushes meanwhile.
     */
    method Pop(timeout: int, arriving: Option<T>) returns (item: Option<T>)
      modifies this
      ensures var waiting := if timeout > 0 && old(data) == [] && arriving.Some?
                             then [codec.encode(arriving.value)] else old(data);
              && (item, data) == PopRight(codec, waiting)
              && (waiting == [] ==> item == None && data == [])
              && (waiting != [] ==>
                    && data == waiting[..|waiting| - 1]
                    && item == if waiting[|waiting| - 1] == "" then None else Some(codec.decode(waiting[|waiting| - 1])))
    {
      item := None;
      if timeout > 0 && data == [] && arriving.Some? {
        data := [codec.encode(arriving.value)];
      }
      if data != [] {
        var last := data[|data| - 1];
        data := data[..|data| - 1];
        if last != "" { item := Some(codec.decode(last)); }
      }
    }
  }

  /** The same list, emptied on the left. */
  class RedisStack<T(!new)> {
    const codec: Codec<T>
    var data: seq<string>

    constructor (codec: Codec<T>)
      ensures this.codec == codec && data == []
    {
      this.codec := codec;
      data := [];
    }

    method Push(item: T)
      modifies this
      ensures data == [codec.encode(item)] + old(data)
    {
      data := [codec.encode(item)] + data;
    }

    /** `BLPOP` if there is a timeout, which waits in the same way, `LPOP` if not. */
    method Pop(timeout: int, arriving: Option<T>) returns (item: Option<T>)
      modifies this
      ensures var waiting := if timeout > 0 && old(data) == [] && arriving.Some?
                             then [codec.encode(arriving.value)] else old(data);
              && (item, data) == PopLeft(codec, waiting)
              && (waiting == [] ==> item == None && data == [])
              && (waiting != [] ==>
                    && data == waiting[1..]
                    && item == if waiting[0] == "" then None else Some(codec.decode(waiting[0])))
    {
      item := None;
      if timeout > 0 && data == [] && arriving.Some? {
        data := [codec.encode(arriving.value)];
      }
      if data != [] {
        var first := data[0];
        data := data[1..];
        if first != "" { item := Some(codec.decode(first)); }
      }
    }
  }

  datatype Op<T> = PushItem(item: T) | PopItem

  /** Everything pushed by these operations, in order. */
  ghost function PushedBy<T>(ops: seq<Op<T>>): seq<T> {
    if ops == [] then []
    else
      var op := ops[|ops| - 1];
      PushedBy(ops[..|ops| - 1]) + if op.PushItem? then [op.item] else []
  }

  /** The list after a series of queue operations on an empty list, and the items they returned. */
  ghost function QueueRun<T(!new)>(codec: Codec<T>, ops: seq<Op<T>>): (seq<string>, seq<T>) {
    if ops == [] then ([], []) else QueueOp(codec, QueueRun(codec, ops[..|ops| - 1]), ops[|ops| - 1])
  }

  ghost function QueueOp<T(!new)>(codec: Codec<T>, run: (seq<string>, seq<T>), op: Op<T>): (seq<string>, seq<T>) {
    match op
    case PushItem(x) => ([codec.encode(x)] + run.0, run.1)
    case PopItem =>
      var (item, rest) := PopRight(codec, run.0);
      (rest, if item.Some? then run.1 + [item.value] else run.1)
  }

  /** The list after pushing these items, in order, onto an empty one. */
  ghost function Stacked<T(!new)>(codec: Codec<T>, pushed: seq<T>): (data: seq<string>)
    ensures |data| == |pushed|
  {
    if pushed == [] then []
    else [codec.encode(pushed[|pushed| - 1])] + Stacked(codec, pushed[..|pushed| - 1])
  }

  lemma {:induction false} StackedBottom<T(!new)>(codec: Codec<T>, pushed: seq<T>)
    requires pushed != []
    ensures var data := Stacked(codec, pushed);
            data[|data| - 1] == codec.encode(pushed[0]) && data[..|data| - 1] == Stacked(codec, pushed[1..])
  {
    var n := |pushed| - 1;
    if n == 0 {
    } else {
      StackedBottom(codec, pushed[..n]);
      assert pushed[..n][1..] == pushed[1..][..n - 1];
    }
  }

  /** `RPOP` takes the oldest of the waiting items. */
  lemma PopRightTakesOldest<T(!new)>(codec: Codec<T>, waiting: seq<T>)
    requires codec.RoundTrips()
    ensures PopRight(codec, Stacked(codec, waiting)) ==
            if waiting == [] then (None, []) else (Some(waiting[0]), Stacked(codec, waiting[1..]))
  {
    if waiting != [] {
      StackedBottom(codec, waiting);
      assert codec.decode(codec.encode(waiting[0])) == waiting[0];
    }
  }

  lemma StackedSnoc<T(!new)>(codec: Codec<T>, waiting: seq<T>, x: T)
    ensures Stacked(codec, waiting + [x]) == [codec.encode(x)] + Stacked(codec, waiting)
  {
    assert (waiting + [x])[..|waiting|] == waiting;
  }

  /** The items returned are the first pushed ones, and the others are still waiting. */
  ghost predicate Fifo<T(!new)>(codec: Codec<T>, run: (seq<string>, seq<T>), pushed: seq<T>) {
    run.1 <= pushed && run.0 == Stacked(codec, pushed[|run.1|..])
  }

  /** One more push or pop. */
  lemma OpKeepsFifo<T(!new)>(codec: Codec<T>, run: (seq<string>, seq<T>), pushed: seq<T>, op: Op<T>)
    requires codec.RoundTrips() && Fifo(codec, run, pushed)
    ensures Fifo(codec, QueueOp(codec, run, op), pushed + if op.PushItem? then [op.item] else [])
  {
    var waiting := pushed[|run.1|..];
    match op
    case PushItem(x) =>
      StackedSnoc(codec, waiting, x);
      assert (pushed + [x])[|run.1|..] == waiting + [x];
    case PopItem =>
      PopRightTakesOldest(codec, waiting);
      assert pushed + [] == pushed;
      if waiting != [] {
        assert waiting[1..] == pushed[|run.1| + 1..];
        assert run.1 + [waiting[0]] <= pushed;
      }
  }

  /**
   * Main result: however pushes and pops are mixed, the items returned so far are
   * the first ones pushed, in order, and the list holds exactly the others:
   * nothing is lost, repeated or overtaken.
   */
  lemma {:induction false} QueueIsFifo<T(!new)>(codec: Codec<T>, ops: seq<Op<T>>)
    requires codec.RoundTrips()
    ensures Fifo(codec, QueueRun(codec, ops), PushedBy(ops))
    decreases |ops|
  {
    if ops == [] {
    } else {
      var before := ops[..|ops| - 1];
      QueueIsFifo(codec, before);
      OpKeepsFifo(codec, QueueRun(codec, before), PushedBy(before), ops[|ops| - 1]);
    }
  }

  /** The items a stack returns until its list is empty. */
  ghost function StackDrain<T(!new)>(codec: Codec<T>, data: seq<string>): seq<T> {
    if data == [] then []
    else
      var (item, rest) := PopLeft(codec, data);
      (if item.Some? then [item.value] else []) + StackDrain(codec, rest)
  }

  ghost function Reverse<T>(s: seq<T>): seq<T> {
    if s == [] then [] else [s[|s| - 1]] + Reverse(s[..|s| - 1])
  }

  lemma {:induction false} ReverseAt<T>(s: seq<T>, k: nat)
    requires k < |s|
    ensures |Reverse(s)| == |s| && Reverse(s)[k] == s[|s| - 1 - k]
    decreases |s|
  {
    if |s| > 1 {
      ReverseAt(s[..|s| - 1], if k == 0 then 0 else k - 1);
    }
  }

  lemma {:induction false} StackDrainsReversed<T(!new)>(codec: Codec<T>, pushed: seq<T>)
    requires codec.RoundTrips()
    ensures StackDrain(codec, Stacked(codec, pushed)) == Reverse(pushed)
    decreases |pushed|
  {
    if pushed == [] {
    } else {
      var n := |pushed| - 1;
      StackDrainsReversed(codec, pushed[..n]);
      assert codec.decode(codec.encode(pushed[n])) == pushed[n];
      assert Stacked(codec, pushed)[1..] == Stacked(codec, pushed[..n]);
    }
  }

  /** Main result: draining a stack returns every pushed item once, newest first. */
  lemma {:induction false} StackIsLifo<T(!new)>(codec: Codec<T>, pushed: seq<T>)
    requires codec.RoundTrips()
    ensures var items := StackDrain(codec, Stacked(codec, pushed));
            |items| == |pushed| && forall k :: 0 <= k < |pushed| ==> items[k] == pushed[|pushed| - 1 - k]
  {
    StackDrainsReversed(codec, pushed);
    assert pushed == [] ==> Reverse(pushed) == [];
    forall k | 0 <= k < |pushed| ensures |Reverse(pushed)| == |pushed| && Reverse(pushed)[k] == pushed[|pushed| - 1 - k] {
      ReverseAt(pushed, k);
    }
    if pushed != [] {
      ReverseAt(pushed, 0);
    }
  }

  /** A pushed item with its priority. */
  datatype Pushed<T> = Pushed(item: T, priority: int)

  /** The first rank, and the set without it. */
  function PopFirst<T(!new)>(codec: Codec<T>, z: seq<Entry>): (Option<T>, seq<Entry>) {
    if z == [] then (None, []) else (Some(codec.decode(z[0].member)), z[1..])
  }

  /** `ZADD` with the negated priority, and an atomic range-and-remove of the first rank. */
  class RedisPriorityQueue<T(!new)> {
    const codec: Codec<T>
    var zset: seq<Entry>

    ghost predicate Valid()
      reads this
    {
      SortedSet.Valid(zset)
    }

    constructor (codec: Codec<T>)
      ensures this.codec == codec && zset == [] && Valid()
    {
      this.codec := codec;
      zset := [];
    }

    method Push(item: T, priority: int)
      requires Valid()
      modifies this
      ensures Valid()
      ensures zset == Add(old(zset), -priority, codec.encode(item))
      ensures Scores(zset) == Scores(old(zset))[codec.encode(item) := -priority]
    {
      AddUpdatesScores(zset, -priority, codec.encode(item));
      zset := Add(zset, -priority, codec.encode(item));
    }

    method Pop() returns (item: Option<T>)
      requires Valid()
      modifies this
      ensures Valid()
      ensures (item, zset) == PopFirst(codec, old(zset))
    {
      item := None;
      if zset != [] {
        item := Some(codec.decode(zset[0].member));
        zset := zset[1..];
      }
    }
  }

  /** The sorted set after a series of pushes onto an empty queue. */
  ghost function PushAll<T(!new)>(codec: Codec<T>, pushes: seq<Pushed<T>>): seq<Entry> {
    if pushes == [] then []
    else
      var p := pushes[|pushes| - 1];
      Add(PushAll(codec, pushes[..|pushes| - 1]), -p.priority, codec.encode(p.item))
  }

  /** The items the queue returns until its set is empty. */
  ghost function PriorityDrain<T(!new)>(codec: Codec<T>, z: seq<Entry>): seq<T> {
    if z == [] then []
    else
      var (item, rest) := PopFirst(codec, z);
      [item.value] + PriorityDrain(codec, rest)
  }

  lemma {:induction false} DrainAt<T(!new)>(codec: Codec<T>, z: seq<Entry>)
    ensures |PriorityDrain(codec, z)| == |z|
    ensures forall i :: 0 <= i < |z| ==> PriorityDrain(codec, z)[i] == codec.decode(z[i].member)
  {
    if z == [] {
    } else {
      DrainAt(codec, z[1..]);
    }
  }

  /** The last push of this item, if any. */
  ghost function LastPush<T(!new)>(pushes: seq<Pushed<T>>, item: T): Option<int> {
    if pushes == [] then None
    else
      var p := pushes[|pushes| - 1];
      if p.item == item then Some(p.priority) else LastPush(pushes[..|pushes| - 1], item)
  }

  /** What draining should give: each pushed item once, best last-pushed priority first, ties in member order. */
  ghost predicate DrainOrder<T(!new)>(codec: Codec<T>, pushes: seq<Pushed<T>>, items: seq<T>) {
    && (forall x :: x in items <==> LastPush(pushes, x).Some?)
    && (forall i, j :: 0 <= i < j < |items| ==> items[i] != items[j])
    && (forall i, j :: 0 <= i < j < |items| && LastPush(pushes, items[i]).Some? && LastPush(pushes, items[j]).Some? ==>
          var p, q := LastPush(pushes, items[i]).value, LastPush(pushes, items[j]).value;
          p > q || (p == q && Less(codec.encode(items[i]), codec.encode(items[j]))))
  }

  lemma {:induction false} PushAllValid<T(!new)>(codec: Codec<T>, pushes: seq<Pushed<T>>)
    ensures SortedSet.Valid(PushAll(codec, pushes))
    decreases |pushes|
  {
    if pushes == [] {
    } else {
      var n := |pushes| - 1;
      PushAllValid(codec, pushes[..n]);
      AddIsUpdate(PushAll(codec, pushes[..n]), -pushes[n].priority, codec.encode(pushes[n].item));
    }
  }

  lemma {:induction false} LastPushIsStored<T(!new)>(codec: Codec<T>, pushes: seq<Pushed<T>>, x: T)
    requires codec.RoundTrips() && LastPush(pushes, x).Some?
    ensures Entry(-LastPush(pushes, x).value, codec.encode(x)) in PushAll(codec, pushes)
    decreases |pushes|
  {
    var n := |pushes| - 1;
    var p := pushes[n];
    PushAllValid(codec, pushes[..n]);
    AddIsUpdate(PushAll(codec, pushes[..n]), -p.priority, codec.encode(p.item));
    if p.item != x {
      LastPushIsStored(codec, pushes[..n], x);
      assert codec.encode(x) != codec.encode(p.item) by {
        assert codec.decode(codec.encode(x)) == x && codec.decode(codec.encode(p.item)) == p.item;
      }
    }
  }

  lemma {:induction false} StoredIsLastPush<T(!new)>(codec: Codec<T>, pushes: seq<Pushed<T>>, e: Entry)
    requires codec.RoundTrips() && e in PushAll(codec, pushes)
    ensures codec.encode(codec.decode(e.member)) == e.member
    ensures LastPush(pushes, codec.decode(e.member)) == Some(-e.score)
    decreases |pushes|
  {
    var n := |pushes| - 1;
    var p := pushes[n];
    PushAllValid(codec, pushes[..n]);
    AddIsUpdate(PushAll(codec, pushes[..n]), -p.priority, codec.encode(p.item));
    assert codec.decode(codec.encode(p.item)) == p.item;
    if e != Entry(-p.priority, codec.encode(p.item)) {
      StoredIsLastPush(codec, pushes[..n], e);
    }
  }

  /**
   * Main result: after any pushes, draining the priority queue gives each pushed
   * item once, in non-increasing order of its last priority, ties in member
   * order.
   */
  lemma DrainGivesPriorityOrder<T(!new)>(codec: Codec<T>, pushes: seq<Pushed<T>>)
    requires codec.RoundTrips()
    ensures DrainOrder(codec, pushes, PriorityDrain(codec, PushAll(codec, pushes)))
  {
    var z := PushAll(codec, pushes);
    var items := PriorityDrain(codec, z);
    DrainAt(codec, z);
    PushAllValid(codec, pushes);
    forall i | 0 <= i < |z|
      ensures codec.encode(items[i]) == z[i].member && LastPush(pushes, items[i]) == Some(-z[i].score)
    {
      StoredIsLastPush(codec, pushes, z[i]);
    }
    forall x ensures x in items <==> LastPush(pushes, x).Some? {
      if LastPush(pushes, x).Some? {
        LastPushIsStored(codec, pushes, x);
        var i :| 0 <= i < |z| && z[i] == Entry(-LastPush(pushes, x).value, codec.encode(x));
        assert items[i] == codec.decode(codec.encode(x)) == x;
      }
    }
    forall i, j | 0 <= i < j < |items| ensures items[i] != items[j] {
      assert z[i].member != z[j].member;
    }
    forall i, j | 0 <= i < j < |items|
      ensures var p, q := LastPush(pushes, items[i]).value, LastPush(pushes, items[j]).value;
              p > q || (p == q && Less(codec.encode(items[i]), codec.encode(items[j])))
    {
      assert Before(z[i], z[j]);
    }
  }

  /** The history of pushes matters only through each item's last priority. */
  lemma OnlyLastPushesMatter<T(!new)>(codec: Codec<T>, a: seq<Pushed<T>>, b: seq<Pushed<T>>)
    requires codec.RoundTrips()
    requires forall x :: LastPush(a, x) == LastPush(b, x)
    ensures PushAll(codec, a) == PushAll(codec, b)
  {
    PushAllValid(codec, a);
    PushAllValid(codec, b);
    SameEntries(codec, a, b);
    SameEntries(codec, b, a);
    OrderIsUnique(PushAll(codec, a), PushAll(codec, b));
  }

  lemma SameEntries<T(!new)>(codec: Codec<T>, a: seq<Pushed<T>>, b: seq<Pushed<T>>)
    requires codec.RoundTrips()
    requires forall x :: LastPush(a, x) == LastPush(b, x)
    ensures forall e :: e in PushAll(codec, a) ==> e in PushAll(codec, b)
  {
    forall e | e in PushAll(codec, a) ensures e in PushAll(codec, b) {
      StoredIsLastPush(codec, a, e);
      LastPushIsStored(codec, b, codec.decode(e.member));
    }
  }
}
