/**
  What the scheduler guarantees: each cycle is exact, and no eligible id starves, whatever else arrives,
  leaves, fails or changes class.
 */
module FairnessBounds {
  import opened FairScheduler

  // ---------------------------------------------------------------- sequences of tasks

  lemma {:induction false} OnlySplits(ts: seq<Task>)
    ensures |Only(ts, true)| + |Only(ts, false)| == |ts|
  {
    if ts != [] {
      OnlySplits(ts[..|ts| - 1]);
    }
  }

  lemma {:induction false} OnlyKeepsDistinct(ts: seq<Task>, isNew: bool)
    requires DistinctIds(ts)
    ensures DistinctIds(Only(ts, isNew))
  {
    if ts != [] {
      var front := ts[..|ts| - 1];
      OnlyKeepsDistinct(front, isNew);
      assert forall x :: x in front ==> x.id != ts[|ts| - 1].id;
    }
  }

  lemma {:induction false} UnselectedKeepsDistinct(ts: seq<Task>, attempted: set<string>)
    requires DistinctIds(ts)
    ensures DistinctIds(Unselected(ts, attempted))
  {
    if ts != [] {
      var front := ts[..|ts| - 1];
      UnselectedKeepsDistinct(front, attempted);
      assert forall x :: x in front ==> x.id != ts[|ts| - 1].id;
    }
  }

  lemma {:induction false} DistinctCount(ts: seq<Task>)
    requires DistinctIds(ts)
    ensures |IdsOf(ts)| == |ts|
  {
    if ts != [] {
      var front, last := ts[..|ts| - 1], ts[|ts| - 1];
      DistinctCount(front);
      assert ts == front + [last];
      assert IdsOf(ts) == IdsOf(front) + {last.id};
      assert forall x :: x in front ==> x.id != last.id;
    }
  }

  lemma NumberedNext(ts: seq<Task>, t: Task)
    ensures Numbered(ts + [t]) == Numbered(ts)[t.id := |Numbered(ts)|]
  {
    assert (ts + [t])[..|ts|] == ts;
  }

  lemma IdsNext(ts: seq<Task>, t: Task)
    ensures IdsOf(ts + [t]) == IdsOf(ts) + {t.id}
  {
    assert forall x :: x in ts + [t] <==> x in ts || x == t;
  }

  lemma {:induction false} NumberedKeys(ts: seq<Task>)
    ensures Numbered(ts).Keys == IdsOf(ts)
  {
    if ts != [] {
      var front, last := ts[..|ts| - 1], ts[|ts| - 1];
      assert ts == front + [last];
      NumberedKeys(front);
      NumberedNext(front, last);
      IdsNext(front, last);
    }
  }

  lemma NumberedSize(ts: seq<Task>)
    requires DistinctIds(ts)
    ensures |Numbered(ts)| == |ts|
  {
    NumberedKeys(ts);
    DistinctCount(ts);
    assert |Numbered(ts)| == |Numbered(ts).Keys|;
  }

  lemma {:induction false} NumberAt(ts: seq<Task>, i: nat)
    requires DistinctIds(ts) && i < |ts|
    ensures ts[i].id in Numbered(ts) && Numbered(ts)[ts[i].id] == i
  {
    var front, last := ts[..|ts| - 1], ts[|ts| - 1];
    assert ts == front + [last];
    NumberedNext(front, last);
    NumberedSize(front);
    if i < |front| {
      NumberAt(front, i);
      assert front[i] == ts[i];
    }
  }

  lemma NumberedCounts(ts: seq<Task>)
    requires DistinctIds(ts)
    ensures Numbered(ts).Keys == IdsOf(ts)
    ensures forall i :: 0 <= i < |ts| ==> ts[i].id in Numbered(ts) && Numbered(ts)[ts[i].id] == i
    ensures forall id :: id in Numbered(ts) ==> Numbered(ts)[id] < |ts| && ts[Numbered(ts)[id]].id == id
  {
    NumberedKeys(ts);
    forall i | 0 <= i < |ts|
      ensures ts[i].id in Numbered(ts) && Numbered(ts)[ts[i].id] == i
    {
      NumberAt(ts, i);
    }
  }

  // ---------------------------------------------------------------- one cycle

  ghost predicate Ready(st: Scheduler, tasks: seq<Task>) {
    Injective(st.waitingOrder) && DistinctIds(tasks)
  }

  /** The tasks of one class in waiting order. */
  function ClassOf(st: Scheduler, tasks: seq<Task>, isNew: bool): seq<Task> {
    Sorted(st.waitingOrder, Only(tasks, isNew))
  }

  lemma ClassIsInOrder(st: Scheduler, tasks: seq<Task>, isNew: bool)
    requires Ready(st, tasks)
    ensures InOrder(st.waitingOrder, ClassOf(st, tasks, isNew)) && DistinctIds(ClassOf(st, tasks, isNew))
    ensures forall x :: x in ClassOf(st, tasks, isNew) <==> x in tasks && x.isNew == isNew
  {
    OnlyKeepsDistinct(tasks, isNew);
    SortedSorts(st.waitingOrder, Only(tasks, isNew));
  }

  function ShareOf(st: Scheduler, quota: int, tasks: seq<Task>, isNew: bool): nat {
    if isNew then SharesOf(st, quota, tasks).0 else SharesOf(st, quota, tasks).1
  }

  lemma ShareFits(st: Scheduler, quota: int, tasks: seq<Task>, isNew: bool)
    ensures ShareOf(st, quota, tasks, isNew) <= |ClassOf(st, tasks, isNew)|
    ensures forall x :: x in ClassOf(st, tasks, isNew)[..ShareOf(st, quota, tasks, isNew)] ==>
              x in Selected(st, quota, tasks)
  {
  }

  /** A class with a share has its first task selected. */
  lemma FirstIsSelected(st: Scheduler, quota: int, tasks: seq<Task>, isNew: bool)
    requires ShareOf(st, quota, tasks, isNew) > 0
    ensures ClassOf(st, tasks, isNew) != [] && ClassOf(st, tasks, isNew)[0] in Selected(st, quota, tasks)
  {
    var c, n := ClassOf(st, tasks, isNew), ShareOf(st, quota, tasks, isNew);
    ShareFits(st, quota, tasks, isNew);
    assert c[0] == c[..n][0];
  }

  lemma SelectedAreTasks(st: Scheduler, quota: int, tasks: seq<Task>, x: Task)
    requires Ready(st, tasks) && x in Selected(st, quota, tasks)
    ensures x in tasks && x in ClassOf(st, tasks, x.isNew)[..ShareOf(st, quota, tasks, x.isNew)]
  {
    ShareFits(st, quota, tasks, true);
    ShareFits(st, quota, tasks, false);
    ClassIsInOrder(st, tasks, true);
    ClassIsInOrder(st, tasks, false);
  }

  lemma JoinIsDistinct(a: seq<Task>, b: seq<Task>)
    requires DistinctIds(a) && DistinctIds(b) && forall x, y :: x in a && y in b ==> x.id != y.id
    ensures DistinctIds(a + b)
  {
    forall i, j | 0 <= i < j < |a + b|
      ensures (a + b)[i].id != (a + b)[j].id
    {
      if i < |a| <= j {
        assert a[i] in a && b[j - |a|] in b;
      }
    }
  }

  lemma SelectedIsDistinct(st: Scheduler, quota: int, tasks: seq<Task>)
    requires Ready(st, tasks)
    ensures DistinctIds(Selected(st, quota, tasks))
    ensures forall x :: x in Selected(st, quota, tasks) ==> x in tasks
  {
    ClassIsInOrder(st, tasks, true);
    ClassIsInOrder(st, tasks, false);
    var news := ClassOf(st, tasks, true)[..ShareOf(st, quota, tasks, true)];
    var refreshes := ClassOf(st, tasks, false)[..ShareOf(st, quota, tasks, false)];
    forall x, y | x in news && y in refreshes
      ensures x.id != y.id
    {
      TasksDiffer(tasks, x, y);
    }
    JoinIsDistinct(news, refreshes);
  }

  lemma TasksDiffer(tasks: seq<Task>, x: Task, y: Task)
    requires DistinctIds(tasks) && x in tasks && y in tasks && x != y
    ensures x.id != y.id
  {
  }

  lemma QueueIsDistinct(st: Scheduler, quota: int, tasks: seq<Task>)
    requires Ready(st, tasks)
    ensures
      var queue := NextQueue(st, quota, tasks);
      DistinctIds(queue) && |queue| == |tasks| && IdsOf(queue) == IdsOf(tasks)
  {
    var selected, all := Selected(st, quota, tasks), Sorted(st.waitingOrder, tasks);
    var rest := Unselected(all, IdsOf(selected));
    SortedSorts(st.waitingOrder, tasks);
    SelectedIsDistinct(st, quota, tasks);
    UnselectedKeepsDistinct(all, IdsOf(selected));
    var queue := rest + selected;
    assert IdsOf(queue) == IdsOf(tasks) by {
      forall id | id in IdsOf(tasks)
        ensures id in IdsOf(queue)
      {
        var t :| t in tasks && t.id == id;
        if id in IdsOf(selected) {
          var x :| x in selected && x.id == id;
          assert x in queue;
        } else {
          assert t in rest && t in queue;
        }
      }
    }
    DistinctCount(queue);
    DistinctCount(tasks);
  }

  /**
    Exactness of a selection: exactly min(quota, eligible) distinct eligible tasks, closed downward in each class,
    and from both classes when both are there and the quota is at least two.
   */
  lemma SelectionIsExact(st: Scheduler, quota: int, tasks: seq<Task>)
    requires Ready(st, tasks)
    ensures
      var selected := Selected(st, quota, tasks);
      && |selected| == Max(0, Min(quota, |tasks|))
      && DistinctIds(selected) && (forall x :: x in selected ==> x in tasks)
      && (forall x, y :: x in selected && y in tasks && y.isNew == x.isNew && Before(st.waitingOrder, y, x) ==>
            y in selected)
      && (quota >= 2 && Only(tasks, true) != [] && Only(tasks, false) != [] ==>
            (exists x :: x in selected && x.isNew) && (exists y :: y in selected && !y.isNew))
  {
    var selected := Selected(st, quota, tasks);
    OnlySplits(tasks);
    SelectedIsDistinct(st, quota, tasks);
    forall x, y | x in selected && y in tasks && y.isNew == x.isNew && Before(st.waitingOrder, y, x)
      ensures y in selected
    {
      SelectedIsPrefix(st, quota, tasks, x, y);
    }
    if quota >= 2 && Only(tasks, true) != [] && Only(tasks, false) != [] {
      FirstIsSelected(st, quota, tasks, true);
      FirstIsSelected(st, quota, tasks, false);
      assert ClassOf(st, tasks, true)[0] in Only(tasks, true) && ClassOf(st, tasks, false)[0] in Only(tasks, false);
    }
  }

  /** The waiting order a cycle leaves numbers exactly the eligible ids 0..n-1, the selected ones last. */
  lemma {:induction false} WaitingOrderIsExact(st: Scheduler, quota: int, tasks: seq<Task>)
    requires Ready(st, tasks)
    ensures
      var selected, order := Selected(st, quota, tasks), Cycle(st, quota, tasks).waitingOrder;
      && order.Keys == IdsOf(tasks) && Injective(order) && (forall id :: id in order ==> order[id] < |tasks|)
      && (forall x, y :: x in selected && y in tasks && y.id !in IdsOf(selected) ==>
            x.id in order && y.id in order && order[y.id] < order[x.id])
  {
    var selected, queue := Selected(st, quota, tasks), NextQueue(st, quota, tasks);
    QueueIsDistinct(st, quota, tasks);
    NumberedCounts(queue);
    forall x, y | x in selected && y in tasks && y.id !in IdsOf(selected)
      ensures x.id in Numbered(queue) && y.id in Numbered(queue) && Numbered(queue)[y.id] < Numbered(queue)[x.id]
    {
      FrontIsNumberedLower(Unselected(Sorted(st.waitingOrder, tasks), IdsOf(selected)), selected, y, x);
    }
  }

  lemma FrontIsNumberedLower(a: seq<Task>, b: seq<Task>, x: Task, y: Task)
    requires DistinctIds(a + b) && x in a && y in b
    ensures
      var order := Numbered(a + b);
      x.id in order && y.id in order && order[x.id] < order[y.id]
  {
    NumberedCounts(a + b);
    var i :| 0 <= i < |a| && a[i] == x;
    var j :| 0 <= j < |b| && b[j] == y;
    assert (a + b)[i] == x && (a + b)[|a| + j] == y;
  }

  lemma SelectedIsPrefix(st: Scheduler, quota: int, tasks: seq<Task>, x: Task, y: Task)
    requires Ready(st, tasks) && x in Selected(st, quota, tasks)
    requires y in tasks && y.isNew == x.isNew && Before(st.waitingOrder, y, x)
    ensures y in Selected(st, quota, tasks)
  {
    var c, n := ClassOf(st, tasks, x.isNew), ShareOf(st, quota, tasks, x.isNew);
    SelectedAreTasks(st, quota, tasks, x);
    ClassIsInOrder(st, tasks, x.isNew);
    ShareFits(st, quota, tasks, x.isNew);
    var i :| 0 <= i < n && c[i] == x;
    var k :| 0 <= k < |c| && c[k] == y;
    if k >= n {
      assert Before(st.waitingOrder, x, y);
      BeforeIsAsymmetric(st.waitingOrder, x, y);
    }
    assert c[k] in c[..n];
  }

  /**
    Of two tasks, the first has the better claim: it waits and the other does not, or has waited longer; among those
    not yet waiting, it was fetched less recently, or at the same time and has the smaller id.
   */
  predicate HasBetterClaim(order: map<string, nat>, x: Task, y: Task) {
    if x.id in order then y.id in order ==> order[x.id] < order[y.id]
    else y.id !in order && (x.lastFetched < y.lastFetched || (x.lastFetched == y.lastFetched && Less(x.id, y.id)))
  }

  /** Of two eligible tasks of one class, one selected and one not, the selected one has the better claim. */
  lemma SelectedHasBetterClaim(st: Scheduler, quota: int, tasks: seq<Task>, x: Task, y: Task)
    requires Ready(st, tasks) && x in Selected(st, quota, tasks)
    requires y in tasks && y.isNew == x.isNew && y.id !in IdsOf(Selected(st, quota, tasks))
    ensures HasBetterClaim(st.waitingOrder, x, y)
  {
    if Before(st.waitingOrder, y, x) {
      SelectedIsPrefix(st, quota, tasks, x, y);
    } else {
      BeforeIsTotal(st.waitingOrder, x, y);
    }
  }

  lemma BeforeIsAsymmetric(order: map<string, nat>, a: Task, b: Task)
    requires Before(order, a, b)
    ensures !Before(order, b, a)
  {
    if Before(order, b, a) {
      BeforeIsTransitive(order, a, b, a);
      LessIsIrreflexive(a.id);
    }
  }

  // ---------------------------------------------------------------- the new waiting order

  lemma {:induction false} UnselectedStaysInOrder(order: map<string, nat>, ts: seq<Task>, attempted: set<string>)
    requires InOrder(order, ts)
    ensures InOrder(order, Unselected(ts, attempted))
  {
    if ts != [] {
      var front, last := ts[..|ts| - 1], ts[|ts| - 1];
      UnselectedStaysInOrder(order, front, attempted);
      assert forall x :: x in front ==> Before(order, x, last);
    }
  }

  /** In an ordered line the better claim stands ahead. */
  lemma OrderFollowsClaims(order: map<string, nat>, line: seq<Task>, i: nat, j: nat)
    requires InOrder(order, line) && i < |line| && j < |line| && i != j
    ensures i < j <==> HasBetterClaim(order, line[i], line[j])
  {
    if j < i {
      BeforeIsAsymmetric(order, line[j], line[i]);
    }
  }

  /** A selection lists the new ones first, and each class by claim. */
  lemma SelectionIsInOrder(st: Scheduler, quota: int, tasks: seq<Task>, i: nat, j: nat)
    requires Ready(st, tasks) && i < j < |Selected(st, quota, tasks)|
    ensures
      var x, y := Selected(st, quota, tasks)[i], Selected(st, quota, tasks)[j];
      (x.isNew && !y.isNew) || (x.isNew == y.isNew && HasBetterClaim(st.waitingOrder, x, y))
  {
    var a, b := ShareOf(st, quota, tasks, true), ShareOf(st, quota, tasks, false);
    var news, refreshes := ClassOf(st, tasks, true), ClassOf(st, tasks, false);
    ClassIsInOrder(st, tasks, true);
    ClassIsInOrder(st, tasks, false);
    assert Selected(st, quota, tasks) == news[..a] + refreshes[..b];
    PartsInOrder(st.waitingOrder, news, refreshes, a, b, i, j);
  }

  lemma PartsInOrder(order: map<string, nat>, news: seq<Task>, refreshes: seq<Task>, a: nat, b: nat, i: nat, j: nat)
    requires InOrder(order, news) && InOrder(order, refreshes) && a <= |news| && b <= |refreshes| && i < j < a + b
    requires (forall x :: x in news ==> x.isNew) && forall x :: x in refreshes ==> !x.isNew
    ensures
      var x, y := (news[..a] + refreshes[..b])[i], (news[..a] + refreshes[..b])[j];
      (x.isNew && !y.isNew) || (x.isNew == y.isNew && HasBetterClaim(order, x, y))
  {
    if j < a {
      OrderFollowsClaims(order, news, i, j);
    } else if i >= a {
      OrderFollowsClaims(order, refreshes, i - a, j - a);
    } else {
      assert news[i] in news && refreshes[j - a] in refreshes;
    }
  }

  lemma QueueParts(st: Scheduler, quota: int, tasks: seq<Task>, selected: seq<Task>, rest: seq<Task>)
    requires Ready(st, tasks) && selected == Selected(st, quota, tasks)
    requires rest == Unselected(Sorted(st.waitingOrder, tasks), IdsOf(selected))
    ensures NextQueue(st, quota, tasks) == rest + selected && |rest| + |selected| == |tasks|
    ensures DistinctIds(rest + selected) && Cycle(st, quota, tasks).waitingOrder == Numbered(rest + selected)
    ensures InOrder(st.waitingOrder, rest)
  {
    QueueIsDistinct(st, quota, tasks);
    SortedSorts(st.waitingOrder, tasks);
    UnselectedStaysInOrder(st.waitingOrder, Sorted(st.waitingOrder, tasks), IdsOf(selected));
  }

  /** Those not selected keep their order: the better claim gets the lower number, newcomers included. */
  lemma UnselectedKeepTheirOrder(st: Scheduler, quota: int, tasks: seq<Task>, x: Task, y: Task)
    requires Ready(st, tasks) && x in tasks && y in tasks && x != y
    requires x.id !in IdsOf(Selected(st, quota, tasks)) && y.id !in IdsOf(Selected(st, quota, tasks))
    ensures
      var order := Cycle(st, quota, tasks).waitingOrder;
      && x.id in order && y.id in order
      && (order[x.id] < order[y.id] <==> HasBetterClaim(st.waitingOrder, x, y))
  {
    var selected := Selected(st, quota, tasks);
    var rest := Unselected(Sorted(st.waitingOrder, tasks), IdsOf(selected));
    QueueParts(st, quota, tasks, selected, rest);
    assert x in rest && y in rest;
    NumbersFollowClaims(st.waitingOrder, rest, selected, x, y);
  }

  lemma NumbersFollowClaims(order: map<string, nat>, rest: seq<Task>, selected: seq<Task>, x: Task, y: Task)
    requires InOrder(order, rest) && DistinctIds(rest + selected) && x in rest && y in rest && x != y
    ensures
      var next := Numbered(rest + selected);
      x.id in next && y.id in next && (next[x.id] < next[y.id] <==> HasBetterClaim(order, x, y))
  {
    var i :| 0 <= i < |rest| && rest[i] == x;
    var j :| 0 <= j < |rest| && rest[j] == y;
    assert (rest + selected)[i] == x && (rest + selected)[j] == y;
    NumberAt(rest + selected, i);
    NumberAt(rest + selected, j);
    OrderFollowsClaims(order, rest, i, j);
  }

  /** The selected ones are numbered last, in the order in which they were selected. */
  lemma SelectedAreNumberedLast(st: Scheduler, quota: int, tasks: seq<Task>, i: nat)
    requires Ready(st, tasks) && i < |Selected(st, quota, tasks)|
    ensures
      var selected, order := Selected(st, quota, tasks), Cycle(st, quota, tasks).waitingOrder;
      selected[i].id in order && order[selected[i].id] == |tasks| - |selected| + i
  {
    var selected := Selected(st, quota, tasks);
    var rest := Unselected(Sorted(st.waitingOrder, tasks), IdsOf(selected));
    QueueParts(st, quota, tasks, selected, rest);
    NumbersOfLast(rest, selected, i);
  }

  lemma NumbersOfLast(rest: seq<Task>, selected: seq<Task>, i: nat)
    requires DistinctIds(rest + selected) && i < |selected|
    ensures
      var next := Numbered(rest + selected);
      selected[i].id in next && next[selected[i].id] == |rest| + i
  {
    assert (rest + selected)[|rest| + i] == selected[i];
    NumberAt(rest + selected, |rest| + i);
  }

  // ---------------------------------------------------------------- waiting ids move up

  lemma {:induction false} UnselectedPrefix(ts: seq<Task>, attempted: set<string>, n: nat)
    requires n <= |ts|
    ensures Unselected(ts[..n], attempted) <= Unselected(ts, attempted)
  {
    if n < |ts| {
      UnselectedPrefix(ts[..|ts| - 1], attempted, n);
      assert ts[..|ts| - 1][..n] == ts[..n];
    } else {
      assert ts[..n] == ts;
    }
  }

  lemma {:induction false} UnselectedIsShorter(ts: seq<Task>, attempted: set<string>)
    ensures |Unselected(ts, attempted)| <= |ts|
  {
    if ts != [] {
      UnselectedIsShorter(ts[..|ts| - 1], attempted);
    }
  }

  lemma {:induction false} UnselectedShrinks(ts: seq<Task>, attempted: set<string>, i: nat)
    requires i < |ts| && ts[i].id in attempted
    ensures |Unselected(ts, attempted)| < |ts|
  {
    var front := ts[..|ts| - 1];
    if i < |front| {
      UnselectedShrinks(front, attempted, i);
    } else {
      UnselectedIsShorter(front, attempted);
    }
  }

  lemma UnselectedNext(ts: seq<Task>, attempted: set<string>, n: nat)
    requires n < |ts|
    ensures Unselected(ts[..n + 1], attempted) ==
            if ts[n].id in attempted then Unselected(ts[..n], attempted) else Unselected(ts[..n], attempted) + [ts[n]]
  {
    assert ts[..n + 1][..n] == ts[..n];
  }

  /** Where an unselected task ends up among the unselected. */
  lemma PlaceAmongUnselected(all: seq<Task>, attempted: set<string>, p: nat)
    requires p < |all| && all[p].id !in attempted
    ensures
      var q := |Unselected(all[..p], attempted)|;
      q < |Unselected(all, attempted)| && Unselected(all, attempted)[q] == all[p]
  {
    UnselectedNext(all, attempted, p);
    UnselectedPrefix(all, attempted, p + 1);
  }

  /** The number of unselected tasks ahead: no more than all of them, and fewer if one was selected. */
  lemma UnselectedAhead(all: seq<Task>, attempted: set<string>, p: nat)
    requires p < |all|
    ensures |Unselected(all[..p], attempted)| <= p
    ensures (exists i :: 0 <= i < p && all[i].id in attempted) ==> |Unselected(all[..p], attempted)| < p
  {
    var ahead := all[..p];
    UnselectedIsShorter(ahead, attempted);
    if i :| 0 <= i < p && all[i].id in attempted {
      UnselectedShrinks(ahead, attempted, i);
    }
  }

  /** The number an unselected id gets is at most its position, and less if someone ahead of it was selected. */
  lemma {:induction false} WaitingMovesUp(st: Scheduler, quota: int, tasks: seq<Task>, p: nat)
    requires Ready(st, tasks) && p < |tasks|
    requires Sorted(st.waitingOrder, tasks)[p].id !in IdsOf(Selected(st, quota, tasks))
    ensures
      var all, order := Sorted(st.waitingOrder, tasks), Cycle(st, quota, tasks).waitingOrder;
      && all[p].id in order && order[all[p].id] <= p
      && ((exists i :: 0 <= i < p && all[i].id in IdsOf(Selected(st, quota, tasks))) ==> order[all[p].id] < p)
  {
    var all, attempted := Sorted(st.waitingOrder, tasks), IdsOf(Selected(st, quota, tasks));
    var queue := NextQueue(st, quota, tasks);
    var q := |Unselected(all[..p], attempted)|;
    PlaceAmongUnselected(all, attempted, p);
    UnselectedAhead(all, attempted, p);
    QueueIsDistinct(st, quota, tasks);
    NumberedCounts(queue);
    assert queue[q] == all[p];
  }

  /** A waiting id stands no further back than its number: newcomers queue behind it. */
  lemma {:induction false} RankIsAtMostNumber(order: map<string, nat>, ts: seq<Task>, p: nat)
    requires InOrder(order, ts) && p < |ts| && ts[p].id in order
    ensures p <= order[ts[p].id]
  {
    if p > 0 {
      assert Before(order, ts[p - 1], ts[p]);
      RankIsAtMostNumber(order, ts, p - 1);
    }
  }

  /** The position of an id among the eligible tasks: how many are ahead of it. */
  ghost predicate StandsAt(st: Scheduler, tasks: seq<Task>, id: string, p: nat) {
    p < |tasks| && Sorted(st.waitingOrder, tasks)[p].id == id
  }

  lemma SomewhereInLine(st: Scheduler, tasks: seq<Task>, id: string) returns (p: nat)
    requires id in IdsOf(tasks)
    ensures StandsAt(st, tasks, id, p)
  {
    var t :| t in tasks && t.id == id;
    assert t in Sorted(st.waitingOrder, tasks);
    p :| 0 <= p < |tasks| && Sorted(st.waitingOrder, tasks)[p] == t;
  }

  /** From one cycle to the next an unselected id is never further back. */
  lemma NextPosition(st: Scheduler, quota: int, tasks: seq<Task>, next: seq<Task>, id: string, p: nat) returns (p': nat)
    requires Ready(st, tasks) && DistinctIds(next) && StandsAt(st, tasks, id, p) && id in IdsOf(next)
    requires id !in IdsOf(Selected(st, quota, tasks))
    ensures Ready(Cycle(st, quota, tasks), next) && StandsAt(Cycle(st, quota, tasks), next, id, p') && p' <= p
    ensures (exists i :: 0 <= i < p && Sorted(st.waitingOrder, tasks)[i].id in IdsOf(Selected(st, quota, tasks))) ==>
      p' < p
  {
    var st' := Cycle(st, quota, tasks);
    CycleIsReady(st, quota, tasks);
    WaitingMovesUp(st, quota, tasks, p);
    p' := SomewhereInLine(st', next, id);
    SortedSorts(st'.waitingOrder, next);
    RankIsAtMostNumber(st'.waitingOrder, Sorted(st'.waitingOrder, next), p');
  }

  lemma CycleIsReady(st: Scheduler, quota: int, tasks: seq<Task>)
    requires Ready(st, tasks)
    ensures Injective(Cycle(st, quota, tasks).waitingOrder)
  {
    QueueIsDistinct(st, quota, tasks);
    NumberedCounts(NextQueue(st, quota, tasks));
  }

  /** Of two tasks in an ordered line, the one that is before stands ahead. */
  lemma AheadInLine(order: map<string, nat>, line: seq<Task>, y: Task, p: nat) returns (i: nat)
    requires InOrder(order, line) && p < |line| && y in line && Before(order, y, line[p])
    ensures i < p && line[i] == y
  {
    i :| 0 <= i < |line| && line[i] == y;
    BeforeIsAsymmetric(order, y, line[p]);
  }

  lemma FirstIsBefore(order: map<string, nat>, line: seq<Task>, x: Task)
    requires InOrder(order, line) && x in line && x != line[0]
    ensures Before(order, line[0], x)
  {
    var k :| 0 <= k < |line| && line[k] == x;
  }

  /** If the class of an unselected task got a share, someone ahead of it was selected. */
  lemma {:induction false} ShareIsTakenAhead(st: Scheduler, quota: int, tasks: seq<Task>, p: nat)
    requires Ready(st, tasks) && p < |tasks|
    requires Sorted(st.waitingOrder, tasks)[p].id !in IdsOf(Selected(st, quota, tasks))
    requires ShareOf(st, quota, tasks, Sorted(st.waitingOrder, tasks)[p].isNew) > 0
    ensures exists i :: 0 <= i < p && Sorted(st.waitingOrder, tasks)[i].id in IdsOf(Selected(st, quota, tasks))
  {
    var all := Sorted(st.waitingOrder, tasks);
    var x := all[p];
    var c := ClassOf(st, tasks, x.isNew);
    FirstIsSelected(st, quota, tasks, x.isNew);
    var y := c[0];
    assert y.id in IdsOf(Selected(st, quota, tasks));
    assert y in all && Before(st.waitingOrder, y, x) by {
      ClassIsInOrder(st, tasks, x.isNew);
      FirstIsBefore(st.waitingOrder, c, x);
    }
    assert InOrder(st.waitingOrder, all) by {
      SortedSorts(st.waitingOrder, tasks);
    }
    var i := AheadInLine(st.waitingOrder, all, y, p);
  }

  // ---------------------------------------------------------------- runs of cycles

  predicate Attempted(st: Scheduler, quota: int, tasks: seq<Task>, id: string) {
    id in IdsOf(Selected(st, quota, tasks))
  }

  /** Cycle `k` of a run takes the scheduler from its state `k` to its state `k + 1`. */
  ghost predicate CycleAt(states: seq<Scheduler>, quota: int, cycles: seq<seq<Task>>, k: nat) {
    k < |cycles| && k + 1 < |states| && states[k + 1] == Cycle(states[k], quota, cycles[k])
  }

  /** The scheduler's states before, between and after the given cycles, from any proper waiting order. */
  ghost predicate IsRun(states: seq<Scheduler>, quota: int, cycles: seq<seq<Task>>) {
    && |states| == |cycles| + 1 && Injective(states[0].waitingOrder)
    && forall k :: 0 <= k < |cycles| ==> CycleAt(states, quota, cycles, k)
  }

  /** Every scheduler with a proper waiting order runs through any cycles. */
  lemma {:induction false} RunFrom(st: Scheduler, quota: int, cycles: seq<seq<Task>>) returns (states: seq<Scheduler>)
    requires Injective(st.waitingOrder)
    ensures IsRun(states, quota, cycles) && states[0] == st
  {
    states := [st];
    if cycles != [] {
      var n := |cycles| - 1;
      states := RunFrom(st, quota, cycles[..n]);
      states := ExtendRun(states, quota, cycles);
    }
  }

  lemma ExtendRun(before: seq<Scheduler>, quota: int, cycles: seq<seq<Task>>) returns (states: seq<Scheduler>)
    requires cycles != [] && IsRun(before, quota, cycles[..|cycles| - 1])
    ensures IsRun(states, quota, cycles) && states[0] == before[0]
  {
    var n := |cycles| - 1;
    states := before + [Cycle(before[n], quota, cycles[n])];
    forall k | 0 <= k < |cycles|
      ensures CycleAt(states, quota, cycles, k)
    {
      SameCycle(before, states, quota, cycles, k);
    }
  }

  lemma SameCycle(before: seq<Scheduler>, states: seq<Scheduler>, quota: int, cycles: seq<seq<Task>>, k: nat)
    requires k < |cycles| == |before| && IsRun(before, quota, cycles[..|cycles| - 1])
    requires states == before + [Cycle(before[|cycles| - 1], quota, cycles[|cycles| - 1])]
    ensures CycleAt(states, quota, cycles, k)
  {
    if k < |cycles| - 1 {
      assert CycleAt(before, quota, cycles[..|cycles| - 1], k);
    }
  }

  ghost predicate AttemptedAt(states: seq<Scheduler>, quota: int, cycles: seq<seq<Task>>, k: nat, id: string) {
    k < |cycles| && k < |states| && Attempted(states[k], quota, cycles[k], id)
  }

  /** An id is selected in one of the first `n` cycles. */
  ghost predicate SelectedWithin(states: seq<Scheduler>, quota: int, cycles: seq<seq<Task>>, n: nat, id: string) {
    exists k :: 0 <= k < n && AttemptedAt(states, quota, cycles, k, id)
  }

  lemma NotYet(states: seq<Scheduler>, quota: int, cycles: seq<seq<Task>>, n: nat, id: string)
    requires n > 0 && !SelectedWithin(states, quota, cycles, n, id)
    ensures !SelectedWithin(states, quota, cycles, n - 1, id) && !AttemptedAt(states, quota, cycles, n - 1, id)
  {
  }

  ghost predicate EligibleIn(tasks: seq<Task>, id: string) {
    DistinctIds(tasks) && id in IdsOf(tasks)
  }

  ghost predicate StaysEligible(cycles: seq<seq<Task>>, id: string) {
    forall k :: 0 <= k < |cycles| ==> EligibleIn(cycles[k], id)
  }

  lemma {:induction false} RunIsReady(states: seq<Scheduler>, quota: int, cycles: seq<seq<Task>>, k: nat, id: string)
    requires IsRun(states, quota, cycles) && StaysEligible(cycles, id) && k <= |cycles|
    ensures Injective(states[k].waitingOrder)
  {
    if k > 0 {
      RunIsReady(states, quota, cycles, k - 1, id);
      ReadyStep(states, quota, cycles, k - 1, id);
    }
  }

  lemma ReadyStep(states: seq<Scheduler>, quota: int, cycles: seq<seq<Task>>, k: nat, id: string)
    requires IsRun(states, quota, cycles) && StaysEligible(cycles, id) && k < |cycles|
    requires Injective(states[k].waitingOrder)
    ensures Injective(states[k + 1].waitingOrder)
  {
    assert EligibleIn(cycles[k], id);
    CycleIsReady(states[k], quota, cycles[k]);
    assert CycleAt(states, quota, cycles, k);
  }

  // ---------------------------------------------------------------- when an id is served

  /** The shares of a cycle depend on the class sizes and the turn only, never on the waiting order. */
  function SharesIn(turn: bool, quota: int, tasks: seq<Task>): (nat, nat, bool) {
    Shares(quota, |Only(tasks, true)|, |Only(tasks, false)|, turn)
  }

  function ClassShare(turn: bool, quota: int, tasks: seq<Task>, isNew: bool): nat {
    if isNew then SharesIn(turn, quota, tasks).0 else SharesIn(turn, quota, tasks).1
  }

  /** The class the id has in this cycle gets a share. */
  ghost predicate Serves(turn: bool, quota: int, tasks: seq<Task>, id: string) {
    exists t :: t in tasks && t.id == id && ClassShare(turn, quota, tasks, t.isNew) > 0
  }

  /** Whose turn it is after the first `k` cycles. */
  function TurnAt(turn: bool, quota: int, cycles: seq<seq<Task>>, k: nat): bool
    requires k <= |cycles|
  {
    if k == 0 then turn else SharesIn(TurnAt(turn, quota, cycles, k - 1), quota, cycles[k - 1]).2
  }

  lemma TurnNext(turn: bool, quota: int, cycles: seq<seq<Task>>, k: nat, now: bool, tasks: seq<Task>)
    requires k < |cycles| && now == TurnAt(turn, quota, cycles, k) && tasks == cycles[k]
    ensures TurnAt(turn, quota, cycles, k + 1) == SharesIn(now, quota, tasks).2
  {
  }

  ghost predicate ServesAt(turn: bool, quota: int, cycles: seq<seq<Task>>, k: nat, id: string) {
    k < |cycles| && Serves(TurnAt(turn, quota, cycles, k), quota, cycles[k], id)
  }

  /** Cycle by cycle, whether the class of the id gets a share. */
  ghost function Service(turn: bool, quota: int, cycles: seq<seq<Task>>, id: string): (flags: seq<bool>)
    ensures |flags| == |cycles|
  {
    seq(|cycles|, k requires 0 <= k < |cycles| => ServesAt(turn, quota, cycles, k, id))
  }

  function CountTrue(flags: seq<bool>, n: nat): nat
    requires n <= |flags|
  {
    if n == 0 then 0 else CountTrue(flags, n - 1) + if flags[n - 1] then 1 else 0
  }

  lemma CountNext(flags: seq<bool>, n: nat)
    requires n < |flags|
    ensures CountTrue(flags, n + 1) == CountTrue(flags, n) + if flags[n] then 1 else 0
  {
  }

  /** In how many of the first `n` cycles the class of the id gets a share. */
  ghost function Served(turn: bool, quota: int, cycles: seq<seq<Task>>, n: nat, id: string): nat
    requires n <= |cycles|
  {
    CountTrue(Service(turn, quota, cycles, id), n)
  }

  lemma TurnAfterCycle(st: Scheduler, quota: int, tasks: seq<Task>, next: Scheduler)
    requires next == Cycle(st, quota, tasks)
    ensures next.refreshTurn == SharesIn(st.refreshTurn, quota, tasks).2
  {
  }

  lemma {:induction false} TurnIsTold(states: seq<Scheduler>, quota: int, cycles: seq<seq<Task>>, k: nat)
    requires IsRun(states, quota, cycles) && k <= |cycles|
    ensures states[k].refreshTurn == TurnAt(states[0].refreshTurn, quota, cycles, k)
  {
    if k > 0 {
      var j := k - 1;
      TurnIsTold(states, quota, cycles, j);
      assert CycleAt(states, quota, cycles, j);
      TurnAfterCycle(states[j], quota, cycles[j], states[k]);
      TurnNext(states[0].refreshTurn, quota, cycles, j, states[j].refreshTurn, cycles[j]);
    }
  }

  lemma ServedNow(turn: bool, quota: int, tasks: seq<Task>, x: Task)
    requires DistinctIds(tasks) && x in tasks
    ensures Serves(turn, quota, tasks, x.id) <==> ClassShare(turn, quota, tasks, x.isNew) > 0
  {
    assert forall t :: t in tasks && t.id == x.id ==> t == x;
  }

  /** A cycle that serves the class of an id and passes it over selects someone ahead of it. */
  lemma ServedIsTakenAhead(st: Scheduler, quota: int, tasks: seq<Task>, id: string, p: nat)
    requires Ready(st, tasks) && StandsAt(st, tasks, id, p) && !Attempted(st, quota, tasks, id)
    requires Serves(st.refreshTurn, quota, tasks, id)
    ensures p > 0 && exists i :: 0 <= i < p && Sorted(st.waitingOrder, tasks)[i].id in IdsOf(Selected(st, quota, tasks))
  {
    ServedNow(st.refreshTurn, quota, tasks, Sorted(st.waitingOrder, tasks)[p]);
    ShareIsTakenAhead(st, quota, tasks, p);
  }

  /** Passed over: the id stands no further back, and strictly further ahead if its class was served. */
  lemma WaitingStep(st: Scheduler, quota: int, tasks: seq<Task>, next: seq<Task>, id: string, p: nat) returns (p': nat)
    requires Ready(st, tasks) && EligibleIn(next, id) && StandsAt(st, tasks, id, p) && !Attempted(st, quota, tasks, id)
    ensures StandsAt(Cycle(st, quota, tasks), next, id, p')
    ensures p' <= p && (Serves(st.refreshTurn, quota, tasks, id) ==> p' < p)
  {
    if Serves(st.refreshTurn, quota, tasks, id) {
      ServedIsTakenAhead(st, quota, tasks, id, p);
    }
    p' := NextPosition(st, quota, tasks, next, id, p);
  }

  /** As long as it is not selected, every cycle that serves its class moves an id up by one place at least. */
  lemma {:induction false} PositionAfter(states: seq<Scheduler>, quota: int, cycles: seq<seq<Task>>, k: nat,
                                         id: string, p: nat)
    returns (q: nat)
    requires IsRun(states, quota, cycles) && StaysEligible(cycles, id) && k < |cycles|
    requires StandsAt(states[0], cycles[0], id, p)
    requires !SelectedWithin(states, quota, cycles, k, id)
    ensures StandsAt(states[k], cycles[k], id, q)
    ensures q + Served(states[0].refreshTurn, quota, cycles, k, id) <= p
  {
    if k == 0 {
      q := p;
    } else {
      var j := k - 1;
      NotYet(states, quota, cycles, k, id);
      var before := PositionAfter(states, quota, cycles, j, id, p);
      q := PositionMoves(states, quota, cycles, j, id, before, p);
    }
  }

  lemma {:induction false} PositionMoves(states: seq<Scheduler>, quota: int, cycles: seq<seq<Task>>, k: nat,
                                         id: string, q: nat, p: nat)
    returns (q': nat)
    requires IsRun(states, quota, cycles) && StaysEligible(cycles, id) && k + 1 < |cycles|
    requires StandsAt(states[k], cycles[k], id, q)
    requires !AttemptedAt(states, quota, cycles, k, id) && q + Served(states[0].refreshTurn, quota, cycles, k, id) <= p
    ensures StandsAt(states[k + 1], cycles[k + 1], id, q')
    ensures q' + Served(states[0].refreshTurn, quota, cycles, k + 1, id) <= p
  {
    var flags := Service(states[0].refreshTurn, quota, cycles, id);
    q' := PositionStep(states, quota, cycles, k, id, q);
    CountNext(flags, k);
  }

  lemma {:induction false} PositionStep(states: seq<Scheduler>, quota: int, cycles: seq<seq<Task>>, k: nat,
                                        id: string, p: nat)
    returns (q: nat)
    requires IsRun(states, quota, cycles) && StaysEligible(cycles, id) && k + 1 < |cycles|
    requires StandsAt(states[k], cycles[k], id, p)
    requires !AttemptedAt(states, quota, cycles, k, id)
    ensures StandsAt(states[k + 1], cycles[k + 1], id, q)
    ensures q <= p && (Service(states[0].refreshTurn, quota, cycles, id)[k] ==> q < p)
  {
    assert CycleAt(states, quota, cycles, k) && EligibleIn(cycles[k], id) && EligibleIn(cycles[k + 1], id);
    RunIsReady(states, quota, cycles, k, id);
    TurnIsTold(states, quota, cycles, k);
    q := WaitingStep(states[k], quota, cycles[k], cycles[k + 1], id, p);
  }

  /** Passed over once more: its class was not served, or there is still someone ahead. */
  lemma {:induction false} PassedOver(states: seq<Scheduler>, quota: int, cycles: seq<seq<Task>>, k: nat, id: string,
                                      q: nat)
    requires IsRun(states, quota, cycles) && StaysEligible(cycles, id) && k < |cycles|
    requires StandsAt(states[k], cycles[k], id, q)
    requires !AttemptedAt(states, quota, cycles, k, id)
    ensures q > 0 || !Service(states[0].refreshTurn, quota, cycles, id)[k]
  {
    assert EligibleIn(cycles[k], id);
    RunIsReady(states, quota, cycles, k, id);
    TurnIsTold(states, quota, cycles, k);
    if Serves(states[k].refreshTurn, quota, cycles[k], id) {
      ServedIsTakenAhead(states[k], quota, cycles[k], id, q);
    }
  }

  lemma {:induction false} NotSelectedMeansNotServed(states: seq<Scheduler>, quota: int, cycles: seq<seq<Task>>,
                                                     k: nat, id: string, p: nat)
    requires IsRun(states, quota, cycles) && StaysEligible(cycles, id) && k < |cycles|
    requires StandsAt(states[0], cycles[0], id, p)
    requires !SelectedWithin(states, quota, cycles, k, id) && !AttemptedAt(states, quota, cycles, k, id)
    ensures Served(states[0].refreshTurn, quota, cycles, k + 1, id) <= p
  {
    var flags := Service(states[0].refreshTurn, quota, cycles, id);
    var q := PositionAfter(states, quota, cycles, k, id, p);
    PassedOver(states, quota, cycles, k, id, q);
    CountNext(flags, k);
  }

  /**
    Served more often than there were ids ahead, an id that stays eligible has been selected: for every quota, whatever
    arrives, leaves, fails or changes class, its own class included.
   */
  lemma {:induction false} ServedMeansSelected(states: seq<Scheduler>, quota: int, cycles: seq<seq<Task>>, n: nat,
                                               id: string, p: nat)
    requires IsRun(states, quota, cycles) && StaysEligible(cycles, id) && 0 < n <= |cycles|
    requires StandsAt(states[0], cycles[0], id, p)
    requires Served(states[0].refreshTurn, quota, cycles, n, id) > p
    ensures SelectedWithin(states, quota, cycles, n, id)
  {
    if !SelectedWithin(states, quota, cycles, n, id) {
      NotYet(states, quota, cycles, n, id);
      NotSelectedMeansNotServed(states, quota, cycles, n - 1, id, p);
    }
  }

  lemma SelectedIsServed(st: Scheduler, quota: int, tasks: seq<Task>, id: string)
    requires Ready(st, tasks) && Attempted(st, quota, tasks, id)
    ensures Serves(st.refreshTurn, quota, tasks, id)
  {
    var x :| x in Selected(st, quota, tasks) && x.id == id;
    SelectedAreTasks(st, quota, tasks, x);
    ServedNow(st.refreshTurn, quota, tasks, x);
  }

  lemma {:induction false} CountPositive(flags: seq<bool>, k: nat, n: nat)
    requires k < n <= |flags| && flags[k]
    ensures CountTrue(flags, n) > 0
  {
    if k < n - 1 {
      CountPositive(flags, k, n - 1);
    }
  }

  /** An id is selected only in a cycle that serves its class. */
  lemma {:induction false} SelectedMeansServed(states: seq<Scheduler>, quota: int, cycles: seq<seq<Task>>, n: nat,
                                               id: string)
    requires IsRun(states, quota, cycles) && StaysEligible(cycles, id) && n <= |cycles|
    requires SelectedWithin(states, quota, cycles, n, id)
    ensures Served(states[0].refreshTurn, quota, cycles, n, id) > 0
  {
    var k :| 0 <= k < n && AttemptedAt(states, quota, cycles, k, id);
    assert EligibleIn(cycles[k], id);
    RunIsReady(states, quota, cycles, k, id);
    TurnIsTold(states, quota, cycles, k);
    SelectedIsServed(states[k], quota, cycles[k], id);
    CountPositive(Service(states[0].refreshTurn, quota, cycles, id), k, n);
  }

  /** Exactly when the head of the line is selected: if and only if one of the cycles serves the class it then has. */
  lemma {:induction false} HeadIsSelectedExactlyWhenServed(states: seq<Scheduler>, quota: int,
                                                           cycles: seq<seq<Task>>, n: nat, id: string)
    requires IsRun(states, quota, cycles) && StaysEligible(cycles, id) && 0 < n <= |cycles|
    requires StandsAt(states[0], cycles[0], id, 0)
    ensures SelectedWithin(states, quota, cycles, n, id) <==> Served(states[0].refreshTurn, quota, cycles, n, id) > 0
  {
    if SelectedWithin(states, quota, cycles, n, id) {
      SelectedMeansServed(states, quota, cycles, n, id);
    } else if Served(states[0].refreshTurn, quota, cycles, n, id) > 0 {
      ServedMeansSelected(states, quota, cycles, n, id, 0);
    }
  }

  // ---------------------------------------------------------------- starvation bounds

  lemma QuotaTwoServes(turn: bool, quota: int, tasks: seq<Task>, id: string)
    requires quota >= 2 && EligibleIn(tasks, id)
    ensures Serves(turn, quota, tasks, id)
  {
    var x :| x in tasks && x.id == id;
    assert x in Only(tasks, x.isNew);
    ServedNow(turn, quota, tasks, x);
  }

  lemma {:induction false} CountAll(flags: seq<bool>, n: nat)
    requires n <= |flags| && forall k :: 0 <= k < n ==> flags[k]
    ensures CountTrue(flags, n) == n
  {
    if n > 0 {
      CountAll(flags, n - 1);
    }
  }

  /** From a quota of two on every cycle serves every class that is there. */
  lemma {:induction false} QuotaTwoAlwaysServes(turn: bool, quota: int, cycles: seq<seq<Task>>, n: nat, id: string)
    requires quota >= 2 && StaysEligible(cycles, id) && n <= |cycles|
    ensures Served(turn, quota, cycles, n, id) == n
  {
    var flags := Service(turn, quota, cycles, id);
    forall k | 0 <= k < n
      ensures flags[k]
    {
      QuotaTwoServes(TurnAt(turn, quota, cycles, k), quota, cycles[k], id);
    }
    CountAll(flags, n);
  }

  /**
    Starvation bound at quota two and more: an id that stays eligible with p ids ahead of it is selected within
    p + 1 cycles, whatever arrives, leaves, fails or changes class, its own class included.
   */
  lemma {:induction false} NoStarvation(states: seq<Scheduler>, quota: int, cycles: seq<seq<Task>>, id: string, p: nat)
    requires quota >= 2 && IsRun(states, quota, cycles) && StaysEligible(cycles, id)
    requires |cycles| > p && StandsAt(states[0], cycles[0], id, p)
    ensures SelectedWithin(states, quota, cycles, p + 1, id)
  {
    QuotaTwoAlwaysServes(states[0].refreshTurn, quota, cycles, p + 1, id);
    ServedMeansSelected(states, quota, cycles, p + 1, id, p);
  }

  ghost predicate HasClass(tasks: seq<Task>, id: string, isNew: bool) {
    forall t :: t in tasks && t.id == id ==> t.isNew == isNew
  }

  ghost predicate KeepsClass(cycles: seq<seq<Task>>, id: string, isNew: bool) {
    forall k :: 0 <= k < |cycles| ==> HasClass(cycles[k], id, isNew)
  }

  /** 1 if the next contested turn at quota one belongs to this class. */
  function HasTurn(turn: bool, isNew: bool): nat {
    if turn == !isNew then 1 else 0
  }

  /** At quota one either the class is served or it gets the next turn. */
  lemma TurnsAlternate(turn: bool, tasks: seq<Task>, id: string, isNew: bool)
    requires EligibleIn(tasks, id) && HasClass(tasks, id, isNew)
    ensures Serves(turn, 1, tasks, id) || (HasTurn(turn, isNew) == 0 && HasTurn(SharesIn(turn, 1, tasks).2, isNew) == 1)
  {
    var x :| x in tasks && x.id == id;
    ServedNow(turn, 1, tasks, x);
    assert x in Only(tasks, isNew);
  }

  lemma ServiceAt(turn: bool, quota: int, cycles: seq<seq<Task>>, id: string, k: nat, now: bool, tasks: seq<Task>)
    requires k < |cycles| && now == TurnAt(turn, quota, cycles, k) && tasks == cycles[k]
    ensures Service(turn, quota, cycles, id)[k] <==> Serves(now, quota, tasks, id)
  {
  }

  /** From one cycle to the next, the class is served or the turn passes to it. */
  lemma TurnPasses(turn: bool, cycles: seq<seq<Task>>, k: nat, id: string, isNew: bool, now: bool, next: bool)
    requires k < |cycles| && EligibleIn(cycles[k], id) && HasClass(cycles[k], id, isNew)
    requires now == TurnAt(turn, 1, cycles, k) && next == TurnAt(turn, 1, cycles, k + 1)
    ensures Serves(now, 1, cycles[k], id) || (HasTurn(now, isNew) == 0 && HasTurn(next, isNew) == 1)
  {
    TurnNext(turn, 1, cycles, k, now, cycles[k]);
    TurnsAlternate(now, cycles[k], id, isNew);
  }

  /** Twice the services so far make up for the cycles so far, but for whose turn it is. */
  ghost predicate KeepsUp(turn: bool, cycles: seq<seq<Task>>, n: nat, id: string, isNew: bool)
    requires n <= |cycles|
  {
    2 * Served(turn, 1, cycles, n, id) + HasTurn(TurnAt(turn, 1, cycles, n), isNew) >= n + HasTurn(turn, isNew)
  }

  lemma KeepsUpFrom(turn: bool, cycles: seq<seq<Task>>, k: nat, id: string, isNew: bool, now: bool, next: bool)
    requires k < |cycles| && KeepsUp(turn, cycles, k, id, isNew)
    requires now == TurnAt(turn, 1, cycles, k) && next == TurnAt(turn, 1, cycles, k + 1)
    requires Serves(now, 1, cycles[k], id) || (HasTurn(now, isNew) == 0 && HasTurn(next, isNew) == 1)
    ensures KeepsUp(turn, cycles, k + 1, id, isNew)
  {
    ServiceAt(turn, 1, cycles, id, k, now, cycles[k]);
    CountNext(Service(turn, 1, cycles, id), k);
  }

  lemma {:induction false} KeptClassKeepsUp(turn: bool, cycles: seq<seq<Task>>, n: nat, id: string, isNew: bool)
    requires StaysEligible(cycles, id) && KeepsClass(cycles, id, isNew) && n <= |cycles|
    ensures KeepsUp(turn, cycles, n, id, isNew)
  {
    if n > 0 {
      var k := n - 1;
      KeptClassKeepsUp(turn, cycles, k, id, isNew);
      assert EligibleIn(cycles[k], id) && HasClass(cycles[k], id, isNew);
      KeepsUpStep(turn, cycles, k, id, isNew);
    }
  }

  lemma KeepsUpStep(turn: bool, cycles: seq<seq<Task>>, k: nat, id: string, isNew: bool)
    requires k < |cycles| && EligibleIn(cycles[k], id) && HasClass(cycles[k], id, isNew)
    requires KeepsUp(turn, cycles, k, id, isNew)
    ensures KeepsUp(turn, cycles, k + 1, id, isNew)
  {
    var now, next := TurnAt(turn, 1, cycles, k), TurnAt(turn, 1, cycles, k + 1);
    TurnPasses(turn, cycles, k, id, isNew, now, next);
    KeepsUpFrom(turn, cycles, k, id, isNew, now, next);
  }

  /** At quota one a class that an id keeps is served in every other cycle at least. */
  lemma {:induction false} KeptClassIsServed(turn: bool, cycles: seq<seq<Task>>, n: nat, id: string, isNew: bool)
    requires StaysEligible(cycles, id) && KeepsClass(cycles, id, isNew) && n <= |cycles|
    ensures 2 * Served(turn, 1, cycles, n, id) >= n - 1
  {
    KeptClassKeepsUp(turn, cycles, n, id, isNew);
  }

  /** Starvation bound at quota one, for an id whose class does not change: at most 2(p + 1) cycles. */
  lemma {:induction false} NoStarvationAtQuotaOne(states: seq<Scheduler>, cycles: seq<seq<Task>>, id: string,
                                                  isNew: bool, p: nat)
    requires IsRun(states, 1, cycles) && StaysEligible(cycles, id) && KeepsClass(cycles, id, isNew)
    requires |cycles| >= 2 * (p + 1) && StandsAt(states[0], cycles[0], id, p)
    ensures SelectedWithin(states, 1, cycles, 2 * (p + 1), id)
  {
    KeptClassIsServed(states[0].refreshTurn, cycles, 2 * (p + 1), id, isNew);
    ServedMeansSelected(states, 1, cycles, 2 * (p + 1), id, p);
  }

  // ---------------------------------------------------------------- why the class must not change at quota one

  /** Two ids that swap classes every cycle. */
  function Swapping(xIsNew: bool): seq<Task> {
    [Task("x", xIsNew, 0), Task("y", !xIsNew, 0)]
  }

  predicate Odd(k: nat) {
    k > 0 && !Odd(k - 1)
  }

  /** "x" starts as a refresh and is new in every other cycle. */
  function SwappingCycles(n: nat): seq<seq<Task>> {
    seq(n, k requires k >= 0 => Swapping(Odd(k)))
  }

  lemma SwappingShares(xIsNew: bool)
    ensures SharesIn(xIsNew, 1, Swapping(xIsNew)).2 == !xIsNew && !Serves(xIsNew, 1, Swapping(xIsNew), "x")
  {
    var tasks := Swapping(xIsNew);
    assert tasks[0] in Only(tasks, xIsNew) && tasks[1] in Only(tasks, !xIsNew);
    ServedNow(xIsNew, 1, tasks, tasks[0]);
  }

  /** The turn is always that of the other class. */
  lemma {:induction false} SwappingTurns(n: nat, k: nat)
    requires k <= n
    ensures TurnAt(false, 1, SwappingCycles(n), k) == Odd(k)
  {
    if k > 0 {
      var turn := Odd(k - 1);
      SwappingTurns(n, k - 1);
      SwappingShares(turn);
      TurnNext(false, 1, SwappingCycles(n), k - 1, turn, Swapping(turn));
    }
  }

  lemma {:induction false} CountNone(flags: seq<bool>, n: nat)
    requires n <= |flags| && forall k :: 0 <= k < n ==> !flags[k]
    ensures CountTrue(flags, n) == 0
  {
    if n > 0 {
      CountNone(flags, n - 1);
    }
  }

  lemma SwappingNeverServes(n: nat)
    ensures Served(false, 1, SwappingCycles(n), n, "x") == 0
  {
    var flags := Service(false, 1, SwappingCycles(n), "x");
    forall k | 0 <= k < n
      ensures !flags[k]
    {
      SwappingTurns(n, k);
      SwappingShares(Odd(k));
    }
    CountNone(flags, n);
  }

  /** The scheduler of a new pipeline. */
  const NEW_SCHEDULER: Scheduler := Scheduler(map[], false)

  lemma SwappingLine()
    ensures Sorted(map[], Swapping(false)) == Swapping(false)
  {
    var y := Task("y", true, 0);
    assert Swapping(false)[1..] == [y] && Sorted(map[], [y]) == [y];
  }

  lemma SwappingIsEligible(xIsNew: bool)
    ensures EligibleIn(Swapping(xIsNew), "x")
  {
    assert Swapping(xIsNew)[0].id == "x" && Swapping(xIsNew)[0] in Swapping(xIsNew);
  }

  /**
    At quota one an id that changes class every cycle can starve forever: from a new pipeline, eligible throughout
    and first in line, and yet never selected.
   */
  lemma {:induction false} ChangingClassCanStarve(n: nat, states: seq<Scheduler>)
    requires n > 0 && IsRun(states, 1, SwappingCycles(n)) && states[0] == NEW_SCHEDULER
    ensures StaysEligible(SwappingCycles(n), "x") && StandsAt(NEW_SCHEDULER, SwappingCycles(n)[0], "x", 0)
    ensures !SelectedWithin(states, 1, SwappingCycles(n), n, "x")
  {
    SwappingIsEligible(true);
    SwappingIsEligible(false);
    SwappingLine();
    SwappingNeverServes(n);
    HeadIsSelectedExactlyWhenServed(states, 1, SwappingCycles(n), n, "x");
  }
}
