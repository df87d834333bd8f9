/**
  The pending list of a page under attempts that partly fail (internal/historyscan/scan.go): a poll tries the items
  at the front, as many as its detail budget allows, and takes the ones that succeed off the list.
 */
module HistoryPending {
  import opened HistoryState
  import opened HistoryScan

  /** The items that are not gone, in order. */
  function Minus(items: seq<Item>, gone: set<Item>): seq<Item> {
    if items == [] then []
    else Minus(items[..|items| - 1], gone) + if items[|items| - 1] in gone then [] else [items[|items| - 1]]
  }

  lemma {:induction false} MinusHas(items: seq<Item>, gone: set<Item>, x: Item)
    ensures x in Minus(items, gone) <==> x in items && x !in gone
  {
    if items != [] {
      var front, last := items[..|items| - 1], items[|items| - 1];
      assert items == front + [last];
      MinusHas(front, gone, x);
    }
  }

  lemma {:induction false} MinusConcat(a: seq<Item>, b: seq<Item>, gone: set<Item>)
    ensures Minus(a + b, gone) == Minus(a, gone) + Minus(b, gone)
  {
    if b == [] {
      assert a + b == a;
    } else {
      var front := b[..|b| - 1];
      assert (a + b)[..|a + b| - 1] == a + front;
      MinusConcat(a, front, gone);
    }
  }

  lemma {:induction false} MinusNothing(items: seq<Item>, gone: set<Item>)
    requires forall i :: 0 <= i < |items| ==> items[i] !in gone
    ensures Minus(items, gone) == items
  {
    if items != [] {
      MinusNothing(items[..|items| - 1], gone);
    }
  }

  lemma {:induction false} MinusTwice(items: seq<Item>, gone: set<Item>, more: set<Item>)
    ensures Minus(Minus(items, gone), more) == Minus(items, gone + more)
  {
    if items != [] {
      var front, last := items[..|items| - 1], items[|items| - 1];
      MinusTwice(front, gone, more);
      MinusConcat(Minus(front, gone), if last in gone then [] else [last], more);
      assert [last][..0] == [];
    }
  }

  lemma {:induction false} MinusKeepsUnique(items: seq<Item>, gone: set<Item>)
    requires UniqueIds(items)
    ensures UniqueIds(Minus(items, gone)) && |Minus(items, gone)| <= |items|
  {
    if items != [] {
      var front, last := items[..|items| - 1], items[|items| - 1];
      MinusKeepsUnique(front, gone);
      var r := Minus(front, gone);
      forall i | 0 <= i < |r|
        ensures r[i].id != last.id
      {
        MinusHas(front, gone, r[i]);
      }
    }
  }

  /** Removing by id is removing that one item. */
  lemma {:induction false} WithoutIdIsMinus(items: seq<Item>, x: Item)
    requires UniqueIds(items) && x in items
    ensures WithoutId(items, x.id) == Minus(items, {x})
  {
    var head, rest := items[0], items[1..];
    MinusFirst(items, x);
    if head.id == x.id {
      assert head == x;
      MinusNothing(rest, {x});
    } else {
      WithoutIdIsMinus(rest, x);
    }
  }

  lemma MinusFirst(items: seq<Item>, x: Item)
    requires items != []
    ensures Minus(items, {x}) == if items[0] == x then Minus(items[1..], {x}) else [items[0]] + Minus(items[1..], {x})
  {
    var head, rest := items[0], items[1..];
    assert items == [head] + rest && [head][..0] == [];
    MinusConcat([head], rest, {x});
    assert Minus([head], {x}) == if head == x then [] else [head];
  }

  // ---------------------------------------------------------------- attempts

  /** The items a poll tries: the first ones, as many as the budget allows. */
  function Tried(pending: seq<Item>, budget: nat): set<Item> {
    set i | 0 <= i < budget && i < |pending| :: pending[i]
  }

  /** What one attempt leaves pending: what it tried and failed, and what it did not try. */
  function Attempt(pending: seq<Item>, budget: nat, failing: set<Item>): seq<Item> {
    Minus(pending, Tried(pending, budget) - failing)
  }

  /** The pending list after so many polls in which the same items fail. */
  function After(pending: seq<Item>, budget: nat, failing: set<Item>, polls: nat): seq<Item>
    decreases polls
  {
    if polls == 0 then pending else After(Attempt(pending, budget, failing), budget, failing, polls - 1)
  }

  /** How many of the items fail. */
  function FailingIn(items: seq<Item>, failing: set<Item>): nat {
    if items == [] then 0 else FailingIn(items[..|items| - 1], failing) + if items[|items| - 1] in failing then 1 else 0
  }

  lemma {:induction false} FailingConcat(a: seq<Item>, b: seq<Item>, failing: set<Item>)
    ensures FailingIn(a + b, failing) == FailingIn(a, failing) + FailingIn(b, failing)
  {
    if b == [] {
      assert a + b == a;
    } else {
      assert (a + b)[..|a + b| - 1] == a + b[..|b| - 1];
      FailingConcat(a, b[..|b| - 1], failing);
    }
  }

  lemma {:induction false} FailingAtMost(items: seq<Item>, failing: set<Item>)
    ensures FailingIn(items, failing) <= |items|
    ensures FailingIn(items, failing) == |items| <==> forall i :: 0 <= i < |items| ==> items[i] in failing
  {
    if items != [] {
      FailingAtMost(items[..|items| - 1], failing);
    }
  }

  /** Taking successes away leaves every failing item in place. */
  lemma {:induction false} MinusKeepsFailing(items: seq<Item>, gone: set<Item>, failing: set<Item>)
    requires gone !! failing
    ensures FailingIn(Minus(items, gone), failing) == FailingIn(items, failing)
  {
    if items != [] {
      var front, last := items[..|items| - 1], items[|items| - 1];
      var kept := Minus(front, gone);
      MinusKeepsFailing(front, gone, failing);
      if last in gone {
        assert last !in failing && kept + [] == kept;
      } else {
        assert (kept + [last])[..|kept|] == kept;
      }
    }
  }

  lemma {:induction false} MinusIsShorter(items: seq<Item>, gone: set<Item>, i: nat)
    requires i < |items| && items[i] in gone
    ensures |Minus(items, gone)| < |items|
  {
    var front := items[..|items| - 1];
    if i < |front| {
      MinusIsShorter(front, gone, i);
    } else {
      MinusIsNoLonger(front, gone);
    }
  }

  lemma {:induction false} MinusIsNoLonger(items: seq<Item>, gone: set<Item>)
    ensures |Minus(items, gone)| <= |items|
  {
    if items != [] {
      MinusIsNoLonger(items[..|items| - 1], gone);
    }
  }

  /** The list with `x` behind `front`. */
  ghost predicate Lines(pending: seq<Item>, front: seq<Item>, x: Item, back: seq<Item>) {
    pending == front + [x] + back && UniqueIds(pending)
  }

  /** Out of reach: an attempt works on what is ahead of `x` and leaves `x` and the rest alone. */
  lemma AttemptAhead(pending: seq<Item>, front: seq<Item>, x: Item, back: seq<Item>, budget: nat, failing: set<Item>)
    requires Lines(pending, front, x, back) && budget <= |front|
    ensures Lines(Attempt(pending, budget, failing), Attempt(front, budget, failing), x, back)
  {
    var gone, rest := Tried(front, budget) - failing, [x] + back;
    assert pending == front + rest;
    assert forall i :: 0 <= i < |front| ==> pending[i] == front[i];
    assert Tried(pending, budget) == Tried(front, budget);
    forall i | 0 <= i < |rest|
      ensures rest[i] !in gone
    {
      assert rest[i] == pending[|front| + i];
    }
    MinusConcat(front, rest, gone);
    MinusNothing(rest, gone);
    assert Attempt(pending, budget, failing) == Attempt(front, budget, failing) + [x] + back;
    MinusKeepsUnique(pending, gone);
  }

  /** With fewer failing items ahead than the budget, something ahead succeeds. */
  lemma SomethingSucceeds(front: seq<Item>, budget: nat, failing: set<Item>)
    requires FailingIn(front, failing) < budget <= |front|
    ensures |Attempt(front, budget, failing)| < |front|
  {
    var tried := front[..budget];
    assert front == tried + front[budget..];
    FailingConcat(tried, front[budget..], failing);
    FailingAtMost(tried, failing);
    var i :| 0 <= i < budget && tried[i] !in failing;
    assert front[i] in Tried(front, budget) - failing;
    MinusIsShorter(front, Tried(front, budget) - failing, i);
  }

  lemma {:induction false} StaysGone(pending: seq<Item>, budget: nat, failing: set<Item>, polls: nat, x: Item)
    requires x !in pending
    ensures x !in After(pending, budget, failing, polls)
    decreases polls
  {
    if polls > 0 {
      MinusHas(pending, Tried(pending, budget) - failing, x);
      StaysGone(Attempt(pending, budget, failing), budget, failing, polls - 1, x);
    }
  }

  /**
    With fewer failing items ahead than the budget, an item is recorded within as many polls as items ahead, plus
    one.
   */
  lemma {:induction false} RecordedInTime(pending: seq<Item>, front: seq<Item>, x: Item, back: seq<Item>,
                                          budget: nat, failing: set<Item>)
    requires Lines(pending, front, x, back) && x !in failing && FailingIn(front, failing) < budget
    ensures x !in After(pending, budget, failing, |front| + 1)
    decreases |front|
  {
    var next := Attempt(pending, budget, failing);
    if |front| < budget {
      assert pending[|front|] == x && x in Tried(pending, budget);
      MinusHas(pending, Tried(pending, budget) - failing, x);
      StaysGone(next, budget, failing, |front|, x);
    } else {
      var front' := Attempt(front, budget, failing);
      AttemptAhead(pending, front, x, back, budget, failing);
      SomethingSucceeds(front, budget, failing);
      MinusKeepsFailing(front, Tried(front, budget) - failing, failing);
      RecordedInTime(next, front', x, back, budget, failing);
      MorePollsAreFine(next, budget, failing, |front'| + 1, |front|, x);
    }
  }

  lemma {:induction false} MorePollsAreFine(pending: seq<Item>, budget: nat, failing: set<Item>, n: nat, m: nat,
                                            x: Item)
    requires x !in After(pending, budget, failing, n) && n <= m
    ensures x !in After(pending, budget, failing, m)
    decreases n
  {
    if n == 0 {
      StaysGone(pending, budget, failing, m, x);
    } else {
      MorePollsAreFine(Attempt(pending, budget, failing), budget, failing, n - 1, m - 1, x);
    }
  }

  /** With as many failing items ahead as the budget, an item is never even tried. */
  lemma {:induction false} NeverTried(pending: seq<Item>, front: seq<Item>, x: Item, back: seq<Item>,
                                      budget: nat, failing: set<Item>, polls: nat)
    requires Lines(pending, front, x, back) && FailingIn(front, failing) >= budget
    ensures x in After(pending, budget, failing, polls)
    decreases polls
  {
    FailingAtMost(front, failing);
    if polls == 0 {
      assert pending[|front|] == x;
    } else {
      AttemptAhead(pending, front, x, back, budget, failing);
      MinusKeepsFailing(front, Tried(front, budget) - failing, failing);
      NeverTried(Attempt(pending, budget, failing), Attempt(front, budget, failing), x, back, budget, failing,
                 polls - 1);
    }
  }

  /**
    Exactly when a pending item that can be recorded ever is, while the same other items keep failing: if and only if
    fewer of them are ahead of it than a poll may try.
   */
  lemma {:induction false} RecordedExactlyWhenFewFailAhead(pending: seq<Item>, front: seq<Item>, x: Item,
                                                           back: seq<Item>, budget: nat, failing: set<Item>)
    requires Lines(pending, front, x, back) && x !in failing
    ensures (exists polls :: x !in After(pending, budget, failing, polls)) <==> FailingIn(front, failing) < budget
  {
    if FailingIn(front, failing) < budget {
      RecordedInTime(pending, front, x, back, budget, failing);
    } else {
      forall polls: nat
        ensures x in After(pending, budget, failing, polls)
      {
        NeverTried(pending, front, x, back, budget, failing, polls);
      }
    }
  }

  // ---------------------------------------------------------------- pages that do not fit

  /** A complete page is accepted by the store's caps if and only if it has no more items than may be pending. */
  lemma PageFitsExactlyWhen(p: Progress, items: seq<Item>, maxPending: nat)
    requires p.windows != [] && |p.windows| <= MAX_WINDOWS
    ensures WithinCaps(AfterListing(p, items, true), maxPending) <==> |items| <= maxPending
  {
  }
}
