/** Removing consecutive duplicates, the meaning of "report a change once". */
module Collapse {

  function Collapsed<T(==)>(xs: seq<T>): seq<T> {
    var n := |xs|;
    if n <= 1 then xs
    else if xs[n - 1] == xs[n - 2] then Collapsed(xs[..n - 1])
    else Collapsed(xs[..n - 1]) + [xs[n - 1]]
  }

  /** Collapsing keeps the last element, and appending either repeats it or adds one. */
  lemma {:induction false} CollapsedAppend<T>(xs: seq<T>, x: T)
    ensures Collapsed(xs + [x]) == if xs != [] && xs[|xs| - 1] == x then Collapsed(xs) else Collapsed(xs) + [x]
    ensures Collapsed(xs + [x]) != [] && Collapsed(xs + [x])[|Collapsed(xs + [x])| - 1] == x
  {
    var ys := xs + [x];
    assert ys[..|ys| - 1] == xs;
    if xs != [] && xs[|xs| - 1] == x {
      assert xs == xs[..|xs| - 1] + [x];
      CollapsedAppend(xs[..|xs| - 1], x);
    }
  }

  lemma CollapsedLast<T>(xs: seq<T>)
    requires xs != []
    ensures Collapsed(xs) != [] && Collapsed(xs)[|Collapsed(xs)| - 1] == xs[|xs| - 1]
  {
    assert xs == xs[..|xs| - 1] + [xs[|xs| - 1]];
    CollapsedAppend(xs[..|xs| - 1], xs[|xs| - 1]);
  }

  /** No two neighbours of a collapsed sequence agree, so A,B,A survives and A,A does not. */
  lemma {:induction false} CollapsedHasNoRepeats<T>(xs: seq<T>)
    ensures var c := Collapsed(xs); forall i :: 0 <= i < |c| - 1 ==> c[i] != c[i + 1]
  {
    if |xs| > 1 {
      var front := xs[..|xs| - 1];
      CollapsedHasNoRepeats(front);
      CollapsedLast(front);
    }
  }
}
