/**
 * A Redis sorted set: distinct members, ordered by score and, among equal
 * scores, by member.
 */
module SortedSet {

  datatype Entry = Entry(score: int, member: string)

  /** Lexicographic order of members. */
  predicate Less(a: string, b: string) {
    if b == [] then false
    else if a == [] then true
    else a[0] < b[0] || (a[0] == b[0] && Less(a[1..], b[1..]))
  }

  predicate Before(e: Entry, f: Entry) {
    e.score < f.score || (e.score == f.score && Less(e.member, f.member))
  }

  ghost predicate Ordered(z: seq<Entry>) {
    forall i, j :: 0 <= i < j < |z| ==> Before(z[i], z[j])
  }

  ghost predicate DistinctMembers(z: seq<Entry>) {
    forall i, j :: 0 <= i < j < |z| ==> z[i].member != z[j].member
  }

  ghost predicate Valid(z: seq<Entry>) {
    Ordered(z) && DistinctMembers(z)
  }

  function Without(z: seq<Entry>, member: string): seq<Entry> {
    if z == [] then []
    else if z[0].member == member then Without(z[1..], member)
    else [z[0]] + Without(z[1..], member)
  }

  function Place(z: seq<Entry>, e: Entry): seq<Entry> {
    if z == [] then [e]
    else if Before(e, z[0]) then [e] + z
    else [z[0]] + Place(z[1..], e)
  }

  /** `ZADD key score member`: a member that is already there only changes its score. */
  function Add(z: seq<Entry>, score: int, member: string): seq<Entry> {
    Place(Without(z, member), Entry(score, member))
  }

  /** The score of every member. */
  function Scores(z: seq<Entry>): map<string, int> {
    if z == [] then map[]
    else Scores(z[..|z| - 1])[z[|z| - 1].member := z[|z| - 1].score]
  }

  lemma {:induction false} LessIrreflexive(a: string)
    ensures !Less(a, a)
  {
    if a == [] {
    } else {
      LessIrreflexive(a[1..]);
    }
  }

  lemma {:induction false} LessTransitive(a: string, b: string, c: string)
    requires Less(a, b) && Less(b, c)
    ensures Less(a, c)
  {
    if a != [] && a[0] == b[0] == c[0] {
      LessTransitive(a[1..], b[1..], c[1..]);
    }
  }

  lemma {:induction false} LessTotal(a: string, b: string)
    ensures Less(a, b) || a == b || Less(b, a)
  {
    if a != [] && b != [] && a[0] == b[0] {
      LessTotal(a[1..], b[1..]);
      assert a == [a[0]] + a[1..] && b == [b[0]] + b[1..];
    }
  }

  /** Members compare at the first character in which they differ, and the shorter one comes first if there is none. */
  lemma {:induction false} LessIsLexicographic(a: string, b: string)
    ensures Less(a, b) <==>
              exists k :: 0 <= k <= |a| && k < |b| && a[..k] == b[..k] && (k == |a| || a[k] < b[k])
  {
    if Less(a, b) {
      var k := FirstDifference(a, b);
    } else if k :| 0 <= k <= |a| && k < |b| && a[..k] == b[..k] && (k == |a| || a[k] < b[k]) {
      DifferenceDecides(a, b, k);
    }
  }

  lemma {:induction false} FirstDifference(a: string, b: string) returns (k: nat)
    requires Less(a, b)
    ensures k <= |a| && k < |b| && a[..k] == b[..k] && (k == |a| || a[k] < b[k])
  {
    if a == [] || a[0] < b[0] {
      k := 0;
    } else {
      var rest := FirstDifference(a[1..], b[1..]);
      k := rest + 1;
      assert a[..k] == [a[0]] + a[1..][..rest] && b[..k] == [b[0]] + b[1..][..rest];
    }
  }

  lemma {:induction false} DifferenceDecides(a: string, b: string, k: nat)
    requires k <= |a| && k < |b| && a[..k] == b[..k] && (k == |a| || a[k] < b[k])
    ensures Less(a, b)
  {
    if k != 0 {
      assert a[0] == a[..k][0] == b[..k][0] == b[0];
      assert a[1..][..k - 1] == a[..k][1..] && b[1..][..k - 1] == b[..k][1..];
      DifferenceDecides(a[1..], b[1..], k - 1);
    }
  }

  lemma BeforeTransitive(e: Entry, f: Entry, g: Entry)
    requires Before(e, f) && Before(f, g)
    ensures Before(e, g)
  {
    if e.score == f.score == g.score {
      LessTransitive(e.member, f.member, g.member);
    }
  }

  lemma {:induction false} WithoutKeepsOthers(z: seq<Entry>, member: string)
    ensures forall e :: e in Without(z, member) <==> e in z && e.member != member
  {
    if z == [] {
    } else {
      WithoutKeepsOthers(z[1..], member);
    }
  }

  lemma {:induction false} WithoutKeepsValid(z: seq<Entry>, member: string)
    requires Valid(z)
    ensures Valid(Without(z, member))
  {
    if z == [] {
    } else {
      WithoutKeepsValid(z[1..], member);
      WithoutKeepsOthers(z[1..], member);
      var rest := Without(z[1..], member);
      forall i | 0 <= i < |rest| ensures Before(z[0], rest[i]) && z[0].member != rest[i].member {
        assert rest[i] in z[1..];
      }
    }
  }

  lemma {:induction false} PlaceAdds(z: seq<Entry>, e: Entry)
    ensures forall f :: f in Place(z, e) <==> f == e || f in z
  {
    if z != [] && !Before(e, z[0]) {
      PlaceAdds(z[1..], e);
    }
  }

  lemma {:induction false} PlaceKeepsValid(z: seq<Entry>, e: Entry)
    requires Valid(z) && forall i :: 0 <= i < |z| ==> z[i].member != e.member
    ensures Valid(Place(z, e))
  {
    if z == [] {
    } else if Before(e, z[0]) {
      forall i | 0 <= i < |z| ensures Before(e, z[i]) {
        if i != 0 { BeforeTransitive(e, z[0], z[i]); }
      }
    } else {
      LessTotal(e.member, z[0].member);
      PlaceKeepsValid(z[1..], e);
      PlaceAdds(z[1..], e);
      var rest := Place(z[1..], e);
      forall i | 0 <= i < |rest| ensures Before(z[0], rest[i]) && z[0].member != rest[i].member {
        assert rest[i] in rest;
      }
    }
  }

  /** Adding keeps the set ordered and its members distinct, and replaces only the member's own entry. */
  lemma AddIsUpdate(z: seq<Entry>, score: int, member: string)
    requires Valid(z)
    ensures Valid(Add(z, score, member))
    ensures forall e :: e in Add(z, score, member) <==>
              e == Entry(score, member) || (e in z && e.member != member)
  {
    WithoutKeepsValid(z, member);
    WithoutKeepsOthers(z, member);
    var rest := Without(z, member);
    forall i | 0 <= i < |rest| ensures rest[i].member != member {
      assert rest[i] in rest;
    }
    PlaceKeepsValid(rest, Entry(score, member));
    PlaceAdds(rest, Entry(score, member));
  }

  lemma {:induction false} ScoresAreEntries(z: seq<Entry>)
    requires DistinctMembers(z)
    ensures forall m :: m in Scores(z) ==> Entry(Scores(z)[m], m) in z
    ensures forall e :: e in z ==> e.member in Scores(z) && Scores(z)[e.member] == e.score
    decreases |z|
  {
    if z == [] {
    } else {
      ScoresAreEntries(z[..|z| - 1]);
    }
  }

  lemma AddUpdatesScores(z: seq<Entry>, score: int, member: string)
    requires Valid(z)
    ensures Valid(Add(z, score, member))
    ensures Scores(Add(z, score, member)) == Scores(z)[member := score]
  {
    var z' := Add(z, score, member);
    AddIsUpdate(z, score, member);
    ScoresAreEntries(z);
    ScoresAreEntries(z');
    forall m | m in Scores(z)[member := score]
      ensures m in Scores(z') && Scores(z')[m] == Scores(z)[member := score][m]
    {
      assert Entry(Scores(z)[member := score][m], m) in z';
    }
    assert Scores(z') == Scores(z)[member := score];
  }

  /** A sorted set is determined by its scores: there is one order only. */
  lemma {:induction false} OrderIsUnique(a: seq<Entry>, b: seq<Entry>)
    requires Valid(a) && Valid(b)
    requires forall e :: e in a <==> e in b
    ensures a == b
  {
    assert b != [] ==> b[0] in b;
    if a == [] {
    } else {
      assert a[0] in b;
      assert b != [] && b[0] in a;
      if a[0] != b[0] {
        BeforeTransitive(a[0], b[0], a[0]);
        LessIrreflexive(a[0].member);
        assert false;
      }
      forall e ensures e in a[1..] <==> e in b[1..] {
        SameTail(a, b, e);
        SameTail(b, a, e);
      }
      OrderIsUnique(a[1..], b[1..]);
    }
  }

  lemma SameTail(a: seq<Entry>, b: seq<Entry>, e: Entry)
    requires DistinctMembers(a) && a != [] && b != [] && a[0] == b[0]
    requires forall f :: f in a <==> f in b
    ensures e in a[1..] ==> e in b[1..]
  {
    if e in a[1..] {
      var i :| 0 <= i < |a[1..]| && a[1..][i] == e;
      assert a[i + 1] == e && e != a[0];
      assert e in b;
      assert b == [b[0]] + b[1..];
    }
  }
}
