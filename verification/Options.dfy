/** The optional value shared by the models. */
module Options {
  datatype Option<+T> = None | Some(value: T)

  /** A loop over a set of numbers can always pick the next one. */
  lemma Inhabited(s: set<int>)
    requires s != {}
    ensures exists x :: x in s
  {
    if forall x :: x !in s { assert false; }
  }
}
