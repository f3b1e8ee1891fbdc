/**
 * The store's map of scores and the queue objects' sorted sets are two views of the
 * same keys: pushing through an object and storing directly, popping the first rank
 * and taking the best entry, come to the same.
 */
module QueueViews {
  import opened Options
  import opened Codec
  import opened Frontier
  import opened RedisStore
  import SortedSet
  import RedisQueues

  /** The sorted set holds the queue's encoded requests with their scores, and nothing else. */
  ghost predicate Shows(codec: Codec<Item>, scores: map<Entry, int>, key: QueueKey, z: seq<SortedSet.Entry>) {
    && SortedSet.Valid(z)
    && (forall item :: Entry(key, item) in scores ==>
          SortedSet.Entry(scores[Entry(key, item)], codec.encode(item)) in z)
    && (forall i :: 0 <= i < |z| ==>
          var e := Entry(key, codec.decode(z[i].member));
          codec.encode(e.item) == z[i].member && e in scores && scores[e] == z[i].score)
  }

  /** The store's scores leave no choice: one sorted set only shows a queue. */
  lemma OneSetShows(
      codec: Codec<Item>, scores: map<Entry, int>, key: QueueKey, y: seq<SortedSet.Entry>, z: seq<SortedSet.Entry>)
    requires Shows(codec, scores, key, y) && Shows(codec, scores, key, z)
    ensures y == z
  {
    OtherShows(codec, scores, key, y, z);
    OtherShows(codec, scores, key, z, y);
    SortedSet.OrderIsUnique(y, z);
  }

  lemma OtherShows(
      codec: Codec<Item>, scores: map<Entry, int>, key: QueueKey, y: seq<SortedSet.Entry>, z: seq<SortedSet.Entry>)
    requires Shows(codec, scores, key, y) && Shows(codec, scores, key, z)
    ensures forall e :: e in y ==> e in z
  {
    forall i | 0 <= i < |y| ensures y[i] in z {
      assert Entry(key, codec.decode(y[i].member)) in scores;
    }
  }

  lemma EncodingsDiffer(codec: Codec<Item>, a: Item, b: Item)
    requires codec.RoundTrips() && codec.encode(a) == codec.encode(b)
    ensures a == b
  {
    assert codec.decode(codec.encode(a)) == a && codec.decode(codec.encode(b)) == b;
  }

  /** Main result: `push` on the queue object does to the sorted set what `ZADD` does to the store. */
  lemma PushShows(codec: Codec<Item>, scores: map<Entry, int>, key: QueueKey, z: seq<SortedSet.Entry>, item: Item)
    requires codec.RoundTrips() && Shows(codec, scores, key, z)
    ensures Shows(codec, scores[Entry(key, item) := -item.priority], key,
                  SortedSet.Add(z, -item.priority, codec.encode(item)))
  {
    var scores' := scores[Entry(key, item) := -item.priority];
    var z' := SortedSet.Add(z, -item.priority, codec.encode(item));
    SortedSet.AddIsUpdate(z, -item.priority, codec.encode(item));
    forall other | Entry(key, other) in scores'
      ensures SortedSet.Entry(scores'[Entry(key, other)], codec.encode(other)) in z'
    {
      if other != item && codec.encode(other) == codec.encode(item) {
        EncodingsDiffer(codec, other, item);
      }
    }
    forall i | 0 <= i < |z'|
      ensures var e := Entry(key, codec.decode(z'[i].member));
              codec.encode(e.item) == z'[i].member && e in scores' && scores'[e] == z'[i].score
    {
      assert codec.decode(codec.encode(item)) == item;
      if z'[i] != SortedSet.Entry(-item.priority, codec.encode(item)) {
        assert z'[i] in z;
        var j :| 0 <= j < |z| && z[j] == z'[i];
        assert codec.encode(codec.decode(z[j].member)) == z[j].member;
      }
    }
  }

  /** Main result: `pop` on the queue object returns the best entry of the store, and leaves the same views. */
  lemma PopShows(codec: Codec<Item>, scores: map<Entry, int>, key: QueueKey, z: seq<SortedSet.Entry>)
    requires codec.RoundTrips() && StoredByPriority(scores) && Shows(codec, scores, key, z)
    ensures var (item, rest) := RedisQueues.PopFirst(codec, z);
            && (item.None? <==> QueueOf(scores, key) == {})
            && (item.Some? ==>
                  var e := Entry(key, item.value);
                  BestTaken(e, scores, scores - {e}) && Shows(codec, scores - {e}, key, rest))
  {
    if z == [] {
      assert QueueOf(scores, key) == {};
    } else {
      var e := Entry(key, codec.decode(z[0].member));
      assert e in QueueOf(scores, key);
      forall f | f in scores && f.key == key ensures f.item.priority <= e.item.priority {
        assert Entry(key, f.item) == f;
        var i :| 0 <= i < |z| && z[i] == SortedSet.Entry(scores[f], codec.encode(f.item));
        assert i != 0 ==> SortedSet.Before(z[0], z[i]);
        assert i == 0 ==> codec.decode(codec.encode(f.item)) == f.item;
      }
      RestShows(codec, scores, key, z);
    }
  }

  lemma RestShows(codec: Codec<Item>, scores: map<Entry, int>, key: QueueKey, z: seq<SortedSet.Entry>)
    requires codec.RoundTrips() && Shows(codec, scores, key, z) && z != []
    ensures Shows(codec, scores - {Entry(key, codec.decode(z[0].member))}, key, z[1..])
  {
    var e := Entry(key, codec.decode(z[0].member));
    var scores' := scores - {e};
    forall item | Entry(key, item) in scores'
      ensures SortedSet.Entry(scores'[Entry(key, item)], codec.encode(item)) in z[1..]
    {
      var i :| 0 <= i < |z| && z[i] == SortedSet.Entry(scores[Entry(key, item)], codec.encode(item));
      assert codec.decode(codec.encode(item)) == item;
      assert i != 0 && z[1..][i - 1] == z[i];
    }
    forall i | 0 <= i < |z[1..]|
      ensures var f := Entry(key, codec.decode(z[1..][i].member));
              codec.encode(f.item) == z[1..][i].member && f in scores' && scores'[f] == z[1..][i].score
    {
      assert z[1..][i] == z[i + 1] && z[0].member != z[i + 1].member;
      assert codec.encode(codec.decode(z[i + 1].member)) == z[i + 1].member;
    }
  }
}
