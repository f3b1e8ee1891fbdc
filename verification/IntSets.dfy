/** Sets of integers. */
module IntSets {

  /** What is not empty has a member. */
  lemma SomeMember(s: set<int>)
    ensures s == {} || exists x :: x in s
  {
    if forall x :: x !in s {
      assert s == {};
    }
  }
}
