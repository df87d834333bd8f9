/**
  The scheduler as the pipeline holds it: `selectFair` over its own waiting order and turn
  (internal/alerts/pipeline.go, internal/serviceability/pipeline.go).
 */
module FairPipeline {
  import opened FairScheduler
  import opened FairnessBounds

  lemma {:induction false} SortedKeepsTasks(order: map<string, nat>, ts: seq<Task>)
    ensures multiset(Sorted(order, ts)) == multiset(ts)
  {
    if ts != [] {
      assert ts == [ts[0]] + ts[1..];
      SortedKeepsTasks(order, ts[1..]);
      InsertAddsTask(order, ts[0], Sorted(order, ts[1..]));
    }
  }

  lemma {:induction false} InsertAddsTask(order: map<string, nat>, t: Task, ts: seq<Task>)
    ensures multiset(Insert(order, t, ts)) == multiset(ts) + multiset{t}
  {
    if ts != [] && !Before(order, t, ts[0]) {
      assert ts == [ts[0]] + ts[1..];
      InsertAddsTask(order, t, ts[1..]);
    }
  }

  lemma SameTasks(a: seq<Task>, b: seq<Task>)
    requires multiset(a) == multiset(b)
    ensures |a| == |b| && forall x :: x in a <==> x in b
  {
    assert |a| == |multiset(a)| && |b| == |multiset(b)|;
    assert forall x :: x in a <==> x in multiset(a);
    assert forall x :: x in b <==> x in multiset(b);
  }

  lemma SameTails(a: seq<Task>, b: seq<Task>)
    requires a != [] && b != [] && multiset(a) == multiset(b) && a[0] == b[0]
    ensures multiset(a[1..]) == multiset(b[1..])
  {
    assert a == [a[0]] + a[1..] && b == [b[0]] + b[1..];
    assert multiset(a[1..]) == multiset(a) - multiset{a[0]};
    assert multiset(b[1..]) == multiset(b) - multiset{b[0]};
  }

  /** Two arrangements of the same tasks, both in order, are the same: an unstable sort leaves nothing open. */
  lemma {:induction false} OneArrangement(order: map<string, nat>, a: seq<Task>, b: seq<Task>)
    requires InOrder(order, a) && InOrder(order, b) && multiset(a) == multiset(b)
    ensures a == b
  {
    SameTasks(a, b);
    if a != [] {
      SameFirst(order, a, b);
      SameTails(a, b);
      OneArrangement(order, a[1..], b[1..]);
      assert a == [a[0]] + a[1..] && b == [b[0]] + b[1..];
    }
  }

  lemma SameFirst(order: map<string, nat>, a: seq<Task>, b: seq<Task>)
    requires InOrder(order, a) && InOrder(order, b) && a != [] && b != [] && a[0] in b && b[0] in a
    ensures a[0] == b[0]
  {
    if a[0] != b[0] {
      FirstIsBefore(order, a, b[0]);
      FirstIsBefore(order, b, a[0]);
      BeforeIsAsymmetric(order, a[0], b[0]);
    }
  }

  /** What any sort by `Before` leaves of distinct tasks is `Sorted`. */
  lemma SortIsDetermined(order: map<string, nat>, ts: seq<Task>, arranged: seq<Task>)
    requires Injective(order) && DistinctIds(ts)
    ensures arranged == Sorted(order, ts) <==> InOrder(order, arranged) && multiset(arranged) == multiset(ts)
  {
    SortedKeepsTasks(order, ts);
    SortedSorts(order, ts);
    if InOrder(order, arranged) && multiset(arranged) == multiset(ts) {
      OneArrangement(order, arranged, Sorted(order, ts));
    }
  }

  lemma OnlyNext(ts: seq<Task>, n: nat, isNew: bool)
    requires n < |ts|
    ensures Only(ts[..n + 1], isNew) ==
              if ts[n].isNew == isNew then Only(ts[..n], isNew) + [ts[n]] else Only(ts[..n], isNew)
  {
    assert ts[..n + 1][..n] == ts[..n];
  }

  lemma AppendNext(queue: seq<Task>, ts: seq<Task>, attempted: set<string>, n: nat)
    requires n < |ts|
    ensures
      var before, after := queue + Unselected(ts[..n], attempted), queue + Unselected(ts[..n + 1], attempted);
      Numbered(after) == if ts[n].id in attempted then Numbered(before)
          else Numbered(before)[ts[n].id := |Numbered(before)|]
  {
    var rest := Unselected(ts[..n], attempted);
    UnselectedNext(ts, attempted, n);
    NumberedNext(queue + rest, ts[n]);
    assert queue + (rest + [ts[n]]) == queue + rest + [ts[n]];
  }

  /** Selection and renumbering of one cycle together. */
  lemma CycleIsExact(st: Scheduler, quota: int, tasks: seq<Task>)
    ensures Injective(st.waitingOrder) && DistinctIds(tasks) ==>
              PrefersBetterClaims(st.waitingOrder, tasks, Selected(st, quota, tasks))
    ensures Injective(st.waitingOrder) && DistinctIds(tasks) ==>
              var selected, order := Selected(st, quota, tasks), Cycle(st, quota, tasks).waitingOrder;
              && Injective(order) && order.Keys == IdsOf(tasks)
              && |selected| == Max(0, Min(quota, |tasks|)) && DistinctIds(selected)
  {
    if Injective(st.waitingOrder) && DistinctIds(tasks) {
      SelectionIsExact(st, quota, tasks);
      WaitingOrderIsExact(st, quota, tasks);
      forall x, y | x in Selected(st, quota, tasks) && PassedOverFor(tasks, Selected(st, quota, tasks), x, y)
        ensures HasBetterClaim(st.waitingOrder, x, y)
      {
        SelectedHasBetterClaim(st, quota, tasks, x, y);
      }
    }
  }

  /** `y` is eligible, of the class of `x`, and not selected. */
  predicate PassedOverFor(tasks: seq<Task>, selected: seq<Task>, x: Task, y: Task) {
    y in tasks && y.isNew == x.isNew && y.id !in IdsOf(selected)
  }

  /** Within a class no task is passed over for one with a lesser claim. */
  ghost predicate PrefersBetterClaims(order: map<string, nat>, tasks: seq<Task>, selected: seq<Task>) {
    forall x, y :: x in selected && PassedOverFor(tasks, selected, x, y) ==> HasBetterClaim(order, x, y)
  }

  class Pipeline {
    const maxPerCycle: int
    var waitingOrder: map<string, nat>
    var nextRefreshTurn: bool

    constructor (maxPerCycle: int)
      ensures this.maxPerCycle == maxPerCycle && State() == Scheduler(map[], false) && Injective(waitingOrder)
    {
      this.maxPerCycle := maxPerCycle;
      waitingOrder := map[];
      nextRefreshTurn := false;
    }

    function State(): Scheduler
      reads this
    {
      Scheduler(waitingOrder, nextRefreshTurn)
    }

    /** Splits the eligible tasks into new ones and refreshes. */
    method Partition(tasks: seq<Task>) returns (newTasks: seq<Task>, refreshTasks: seq<Task>)
      ensures newTasks == Only(tasks, true) && refreshTasks == Only(tasks, false)
    {
      newTasks, refreshTasks := [], [];
      for i := 0 to |tasks|
        invariant newTasks == Only(tasks[..i], true) && refreshTasks == Only(tasks[..i], false)
      {
        OnlyNext(tasks, i, true);
        OnlyNext(tasks, i, false);
        if tasks[i].isNew {
          newTasks := newTasks + [tasks[i]];
        } else {
          refreshTasks := refreshTasks + [tasks[i]];
        }
      }
      assert tasks[..|tasks|] == tasks;
    }

    /** Appends numbers for the tasks not yet attempted to a waiting order. */
    method Append(order: map<string, nat>, ghost queue: seq<Task>, tasks: seq<Task>, attempted: set<string>)
      returns (next: map<string, nat>)
      requires order == Numbered(queue)
      ensures next == Numbered(queue + Unselected(tasks, attempted))
    {
      next := order;
      assert queue + Unselected(tasks[..0], attempted) == queue;
      for i := 0 to |tasks|
        invariant next == Numbered(queue + Unselected(tasks[..i], attempted))
      {
        AppendNext(queue, tasks, attempted, i);
        if tasks[i].id !in attempted {
          next := next[tasks[i].id := |next|];
        }
      }
      assert tasks[..|tasks|] == tasks;
    }

    /** The deferred update: every eligible id is renumbered, the attempted ones behind all others. */
    method Rotate(tasks: seq<Task>, selected: seq<Task>)
      modifies this`waitingOrder
      ensures waitingOrder == Numbered(Unselected(Sorted(old(waitingOrder), tasks), IdsOf(selected)) + selected)
    {
      var attempted: set<string> := {};
      for i := 0 to |selected|
        invariant attempted == IdsOf(selected[..i])
      {
        assert selected[..i + 1] == selected[..i] + [selected[i]];
        attempted := attempted + {selected[i].id};
      }
      assert selected[..|selected|] == selected;
      var next := Append(map[], [], Sorted(waitingOrder, tasks), attempted);
      ghost var rest := Unselected(Sorted(waitingOrder, tasks), attempted);
      assert [] + rest == rest;
      next := Append(next, rest, selected, {});
      assert Unselected(selected, {}) == selected by {
        NoneAttempted(selected);
      }
      waitingOrder := next;
    }

    /** The shares of a cycle: the quota is divided, and what one class leaves the other takes. */
    method Take(newTasks: seq<Task>, refreshTasks: seq<Task>) returns (selected: seq<Task>)
      modifies this`nextRefreshTurn
      ensures
        var (a, b, turn) := Shares(maxPerCycle, |newTasks|, |refreshTasks|, old(nextRefreshTurn));
        selected == newTasks[..a] + refreshTasks[..b] && nextRefreshTurn == turn
    {
      var limit := Min(maxPerCycle, |newTasks| + |refreshTasks|);
      if limit <= 0 {
        return [];
      }
      if |newTasks| == 0 {
        return refreshTasks[..Min(limit, |refreshTasks|)];
      }
      if |refreshTasks| == 0 {
        return newTasks[..Min(limit, |newTasks|)];
      }
      if limit == 1 {
        if nextRefreshTurn {
          nextRefreshTurn := false;
          return [refreshTasks[0]];
        }
        nextRefreshTurn := true;
        return [newTasks[0]];
      }
      var refreshCount := Min(Max(1, limit / 4), |refreshTasks|);
      var newCount := Min(limit - refreshCount, |newTasks|);
      var remaining := limit - refreshCount - newCount;
      if remaining > 0 {
        var extraRefresh := Min(remaining, |refreshTasks| - refreshCount);
        refreshCount := refreshCount + extraRefresh;
        remaining := remaining - extraRefresh;
      }
      if remaining > 0 {
        newCount := newCount + Min(remaining, |newTasks| - newCount);
      }
      selected := newTasks[..newCount] + refreshTasks[..refreshCount];
    }

    /** One cycle's selection. */
    method SelectFair(tasks: seq<Task>) returns (selected: seq<Task>)
      modifies this
      ensures selected == Selected(old(State()), maxPerCycle, tasks)
      ensures State() == Cycle(old(State()), maxPerCycle, tasks)
      ensures old(Injective(waitingOrder)) && DistinctIds(tasks) ==>
                PrefersBetterClaims(old(waitingOrder), tasks, selected)
      ensures old(Injective(waitingOrder)) && DistinctIds(tasks) ==>
                && Injective(waitingOrder) && waitingOrder.Keys == IdsOf(tasks)
                && |selected| == Max(0, Min(maxPerCycle, |tasks|)) && DistinctIds(selected)
    {
      ghost var st := State();
      var newTasks, refreshTasks := Partition(tasks);
      newTasks := Sorted(waitingOrder, newTasks);
      refreshTasks := Sorted(waitingOrder, refreshTasks);
      selected := Take(newTasks, refreshTasks);
      assert selected == Selected(st, maxPerCycle, tasks);
      Rotate(tasks, selected);
      CycleIsExact(st, maxPerCycle, tasks);
    }
  }

  lemma {:induction false} NoneAttempted(ts: seq<Task>)
    ensures Unselected(ts, {}) == ts
  {
    if ts != [] {
      NoneAttempted(ts[..|ts| - 1]);
    }
  }
}
