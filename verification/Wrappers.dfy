/** An optional value, and one fact about sets that loops over them use. */
module Wrappers {
  datatype Option<+T> = None | Some(value: T)

  lemma HasElement(s: set<int>)
    requires s != {}
    ensures exists x :: x in s
  {
    if forall x :: x !in s {
      assert false;
    }
  }
}
