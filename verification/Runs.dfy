/** Runs of a state machine: the actions so far, the latest outermost. */
module Runs {

  datatype Past<A> = Start | Then(before: Past<A>, action: A)

  /** The later run begins with the earlier one. */
  ghost predicate Continues<A>(earlier: Past<A>, later: Past<A>) {
    later == earlier || (later.Then? && Continues(earlier, later.before))
  }

  lemma {:induction false} ContinuesTransitive<A>(a: Past<A>, b: Past<A>, c: Past<A>)
    requires Continues(a, b) && Continues(b, c)
    ensures Continues(a, c)
  {
    if c != b {
      ContinuesTransitive(a, b, c.before);
    }
  }
}
