/**
  The waiting bounds are tight: being served as often as there are ids ahead is not enough. With one class and a quota
  of one, a cycle turns the line by one place, so the last of p + 1 ids is passed over p times.
 */
module FairTightness {
  import opened FairScheduler
  import opened FairnessBounds
  import opened FairPipeline

  predicate AllNew(ts: seq<Task>) {
    forall t :: t in ts ==> t.isNew
  }

  lemma {:induction false} OneClass(ts: seq<Task>)
    requires AllNew(ts)
    ensures Only(ts, true) == ts && Only(ts, false) == []
  {
    if ts != [] {
      var front := ts[..|ts| - 1];
      assert ts == front + [ts[|ts| - 1]];
      OneClass(front);
    }
  }

  lemma {:induction false} UnselectedButFirst(x: Task, rest: seq<Task>)
    requires forall i :: 0 <= i < |rest| ==> rest[i].id != x.id
    ensures Unselected([x] + rest, {x.id}) == rest
  {
    var all, n, attempted := [x] + rest, |rest|, {x.id};
    assert all[..n + 1] == all;
    UnselectedNext(all, attempted, n);
    if n == 0 {
      assert all[..0] == [] && Unselected([], attempted) == [];
    } else {
      var front := rest[..n - 1];
      UnselectedButFirst(x, front);
      assert all[..n] == [x] + front && rest == front + [all[n]];
    }
  }

  lemma AllButFirst(all: seq<Task>)
    requires DistinctIds(all) && all != []
    ensures Unselected(all, {all[0].id}) == all[1..]
  {
    var x, rest := all[0], all[1..];
    assert all == [x] + rest;
    UnselectedButFirst(x, rest);
  }

  /** The line turned by one place. */
  function Turned(all: seq<Task>): seq<Task>
    requires all != []
  {
    all[1..] + [all[0]]
  }

  lemma HeadIsTaken(st: Scheduler, tasks: seq<Task>)
    requires Ready(st, tasks) && AllNew(tasks) && tasks != []
    ensures Selected(st, 1, tasks) == [Sorted(st.waitingOrder, tasks)[0]]
  {
    OneClass(tasks);
    var all := Sorted(st.waitingOrder, tasks);
    assert Sorted(st.waitingOrder, Only(tasks, true))[..1] == [all[0]];
  }

  lemma RestOfLine(order: map<string, nat>, tasks: seq<Task>, all: seq<Task>, head: seq<Task>)
    requires Injective(order) && DistinctIds(tasks) && tasks != [] && all == Sorted(order, tasks) && head == [all[0]]
    ensures Unselected(all, IdsOf(head)) == all[1..]
  {
    SortedSorts(order, tasks);
    AllButFirst(all);
    assert IdsOf(head) == {all[0].id};
  }

  lemma QueueIsRestThenSelected(st: Scheduler, tasks: seq<Task>, selected: seq<Task>, rest: seq<Task>)
    requires selected == Selected(st, 1, tasks) && rest == Unselected(Sorted(st.waitingOrder, tasks), IdsOf(selected))
    ensures NextQueue(st, 1, tasks) == rest + selected
  {
  }

  lemma QueueIsTurned(st: Scheduler, tasks: seq<Task>)
    requires Ready(st, tasks) && AllNew(tasks) && tasks != []
    ensures NextQueue(st, 1, tasks) == Turned(Sorted(st.waitingOrder, tasks))
  {
    var all := Sorted(st.waitingOrder, tasks);
    var head, rest := [all[0]], all[1..];
    HeadIsTaken(st, tasks);
    RestOfLine(st.waitingOrder, tasks, all, head);
    QueueIsRestThenSelected(st, tasks, head, rest);
  }

  lemma NumberedIsInOrder(queue: seq<Task>)
    requires DistinctIds(queue)
    ensures InOrder(Numbered(queue), queue) && Injective(Numbered(queue))
  {
    NumberedCounts(queue);
  }

  lemma TurnedKeepsTasks(all: seq<Task>)
    requires all != []
    ensures multiset(Turned(all)) == multiset(all)
  {
    assert all == [all[0]] + all[1..];
  }

  /** The next cycle finds the same tasks in the turned line. */
  lemma LineTurns(st: Scheduler, tasks: seq<Task>)
    requires Ready(st, tasks) && AllNew(tasks) && tasks != []
    ensures Sorted(Cycle(st, 1, tasks).waitingOrder, tasks) == Turned(Sorted(st.waitingOrder, tasks))
  {
    var all, order := Sorted(st.waitingOrder, tasks), Numbered(NextQueue(st, 1, tasks));
    QueueIsTurned(st, tasks);
    QueueIsDistinct(st, 1, tasks);
    NumberedIsInOrder(Turned(all));
    TurnedKeepsTasks(all);
    SortedKeepsTasks(st.waitingOrder, tasks);
    SortIsDetermined(order, tasks, Turned(all));
  }

  /** An id that is not at the head is passed over and moves up by exactly one place. */
  lemma MovesUpByOne(st: Scheduler, tasks: seq<Task>, id: string, p: nat)
    requires Ready(st, tasks) && AllNew(tasks) && StandsAt(st, tasks, id, p) && p > 0
    ensures !Attempted(st, 1, tasks, id) && StandsAt(Cycle(st, 1, tasks), tasks, id, p - 1)
  {
    var all := Sorted(st.waitingOrder, tasks);
    HeadIsTaken(st, tasks);
    SortedSorts(st.waitingOrder, tasks);
    LineTurns(st, tasks);
    assert Turned(all)[p - 1] == all[p];
  }

  /** Tasks "", "a", "aa" and so on. */
  function ManyNew(n: nat): seq<Task> {
    seq(n, k requires k >= 0 => Task(seq(k, _ => 'a'), true, 0))
  }

  lemma ManyAreDistinct(n: nat)
    ensures DistinctIds(ManyNew(n)) && AllNew(ManyNew(n))
  {
    var ts := ManyNew(n);
    forall i, j | 0 <= i < j < n
      ensures ts[i].id != ts[j].id
    {
      assert |ts[i].id| == i && |ts[j].id| == j;
    }
  }

  function SameCycles(tasks: seq<Task>, n: nat): seq<seq<Task>> {
    seq(n, _ => tasks)
  }

  /** Cycle after cycle the same new tasks at a quota of one. */
  ghost predicate IsTurning(states: seq<Scheduler>, tasks: seq<Task>, n: nat) {
    IsRun(states, 1, SameCycles(tasks, n)) && DistinctIds(tasks) && AllNew(tasks)
  }

  ghost predicate Waits(st: Scheduler, tasks: seq<Task>, id: string, q: nat) {
    Injective(st.waitingOrder) && StandsAt(st, tasks, id, q)
  }

  lemma {:induction false} StillWaiting(states: seq<Scheduler>, tasks: seq<Task>, n: nat, id: string, p: nat, k: nat)
    requires IsTurning(states, tasks, n) && k <= n && k <= p && StandsAt(states[0], tasks, id, p)
    ensures Waits(states[k], tasks, id, p - k)
  {
    if k > 0 {
      var j, q := k - 1, p - k + 1;
      StillWaiting(states, tasks, n, id, p, j);
      WaitingTurn(states, tasks, n, id, q, j);
    }
  }

  lemma WaitingTurn(states: seq<Scheduler>, tasks: seq<Task>, n: nat, id: string, q: nat, k: nat)
    requires IsTurning(states, tasks, n) && k < n && q > 0
    requires Waits(states[k], tasks, id, q)
    ensures !AttemptedAt(states, 1, SameCycles(tasks, n), k, id) && Waits(states[k + 1], tasks, id, q - 1)
  {
    assert CycleAt(states, 1, SameCycles(tasks, n), k);
    MovesUpByOne(states[k], tasks, id, q);
    CycleIsReady(states[k], 1, tasks);
  }

  lemma AlwaysServed(turn: bool, tasks: seq<Task>, n: nat, id: string)
    requires DistinctIds(tasks) && AllNew(tasks) && id in IdsOf(tasks)
    ensures Served(turn, 1, SameCycles(tasks, n), n, id) == n
  {
    var cycles := SameCycles(tasks, n);
    OneClass(tasks);
    var x :| x in tasks && x.id == id;
    forall k | 0 <= k < n
      ensures Service(turn, 1, cycles, id)[k]
    {
      ServedNow(TurnAt(turn, 1, cycles, k), 1, tasks, x);
    }
    CountAll(Service(turn, 1, cycles, id), n);
  }

  /**
    For every p there is an id with p ids ahead whose class is served p times in p cycles and that is still not
    selected.
   */
  lemma {:induction false} ServedAsOftenAsAheadIsNotEnough(p: nat)
      returns (states: seq<Scheduler>, cycles: seq<seq<Task>>, id: string)
    requires p > 0
    ensures IsRun(states, 1, cycles) && states[0] == NEW_SCHEDULER && |cycles| == p && StaysEligible(cycles, id)
    ensures StandsAt(states[0], cycles[0], id, p) && Served(states[0].refreshTurn, 1, cycles, p, id) == p
    ensures !SelectedWithin(states, 1, cycles, p, id)
  {
    var tasks := ManyNew(p + 1);
    ManyAreDistinct(p + 1);
    cycles := SameCycles(tasks, p);
    states := RunFrom(NEW_SCHEDULER, 1, cycles);
    id := Sorted(map[], tasks)[p].id;
    assert Sorted(map[], tasks)[p] in tasks;
    assert EligibleIn(tasks, id);
    AlwaysServed(false, tasks, p, id);
    NotInTime(states, tasks, id, p);
  }

  lemma NotInTime(states: seq<Scheduler>, tasks: seq<Task>, id: string, p: nat)
    requires IsTurning(states, tasks, p) && StandsAt(states[0], tasks, id, p)
    ensures !SelectedWithin(states, 1, SameCycles(tasks, p), p, id)
  {
    forall k | 0 <= k < p
      ensures !AttemptedAt(states, 1, SameCycles(tasks, p), k, id)
    {
      StillWaiting(states, tasks, p, id, p, k);
      WaitingTurn(states, tasks, p, id, p - k, k);
    }
  }
}
