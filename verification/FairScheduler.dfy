/**
  The two-class detail scheduler `selectFair` (internal/alerts/pipeline.go, and the same code in
  internal/serviceability/pipeline.go): new or changed ids and refreshes share a per-cycle quota, and ids wait
  in an order that attempts rotate.
 */
module FairScheduler {

  /** `isNew` is priority 0; anything else is a refresh. */
  datatype Task = Task(id: string, isNew: bool, lastFetched: int)

  datatype Scheduler = Scheduler(waitingOrder: map<string, nat>, refreshTurn: bool)

  // ---------------------------------------------------------------- the order of the sort

  predicate Less(a: string, b: string) {
    if b == [] then false
    else if a == [] then true
    else if a[0] != b[0] then a[0] < b[0]
    else Less(a[1..], b[1..])
  }

  /** `a` and `b` agree up to `n`, where `a` ends first or has the smaller character. */
  predicate DivergesAt(a: string, b: string, n: nat) {
    && n <= |a| && n < |b| && a[..n] == b[..n] && (n == |a| || a[n] < b[n])
  }

  /** The comparison of ids is lexicographic. */
  lemma {:induction false} LessIsLexicographic(a: string, b: string)
    ensures Less(a, b) <==> exists n: nat :: DivergesAt(a, b, n)
  {
    if a == [] && b != [] {
      assert DivergesAt(a, b, 0);
    } else if a != [] && b != [] && a[0] == b[0] {
      LessIsLexicographic(a[1..], b[1..]);
      if Less(a[1..], b[1..]) {
        var n: nat :| DivergesAt(a[1..], b[1..], n);
        assert a == [a[0]] + a[1..] && b == [b[0]] + b[1..];
        assert a[..n + 1] == [a[0]] + a[1..][..n] && b[..n + 1] == [b[0]] + b[1..][..n];
        assert DivergesAt(a, b, n + 1);
      }
      if n: nat :| DivergesAt(a, b, n) {
        assert n > 0;
        assert a[1..][..n - 1] == a[..n][1..] && b[1..][..n - 1] == b[..n][1..];
        assert DivergesAt(a[1..], b[1..], n - 1);
      }
    } else if a != [] && b != [] && a[0] < b[0] {
      assert DivergesAt(a, b, 0);
    } else {
      forall n: nat
        ensures !DivergesAt(a, b, n)
      {
        HeadsAgree(a, b, n);
      }
    }
  }

  lemma HeadsAgree(a: string, b: string, n: nat)
    ensures DivergesAt(a, b, n) && n > 0 ==> a != [] && b != [] && a[0] == b[0]
  {
    if DivergesAt(a, b, n) && n > 0 {
      assert a[..n][0] == b[..n][0];
    }
  }

  lemma {:induction false} LessIsTotal(a: string, b: string)
    requires a != b
    ensures Less(a, b) != Less(b, a)
  {
    if a != [] && b != [] && a[0] == b[0] {
      assert a == [a[0]] + a[1..] && b == [b[0]] + b[1..];
      LessIsTotal(a[1..], b[1..]);
    }
  }

  lemma {:induction false} LessIsTransitive(a: string, b: string, c: string)
    requires Less(a, b) && Less(b, c)
    ensures Less(a, c)
  {
    if a != [] && a[0] == b[0] == c[0] {
      LessIsTransitive(a[1..], b[1..], c[1..]);
    }
  }

  /** The comparison of the sort: waiting ids first, by waiting order; then the least recently fetched; then by id. */
  predicate Before(order: map<string, nat>, a: Task, b: Task) {
    if (a.id in order) != (b.id in order) then a.id in order
    else if a.id in order then order[a.id] < order[b.id]
    else if a.lastFetched != b.lastFetched then a.lastFetched < b.lastFetched
    else Less(a.id, b.id)
  }

  ghost predicate Injective(order: map<string, nat>) {
    forall x, y :: x in order && y in order && x != y ==> order[x] != order[y]
  }

  predicate DistinctIds(ts: seq<Task>) {
    forall i, j :: 0 <= i < j < |ts| ==> ts[i].id != ts[j].id
  }

  lemma BeforeIsTotal(order: map<string, nat>, a: Task, b: Task)
    requires Injective(order) && a.id != b.id
    ensures Before(order, a, b) || Before(order, b, a)
  {
    LessIsTotal(a.id, b.id);
  }

  lemma BeforeIsTransitive(order: map<string, nat>, a: Task, b: Task, c: Task)
    requires Before(order, a, b) && Before(order, b, c)
    ensures Before(order, a, c)
  {
    if a.id !in order && a.lastFetched == c.lastFetched && b.lastFetched == a.lastFetched {
      LessIsTransitive(a.id, b.id, c.id);
    }
  }

  ghost predicate InOrder(order: map<string, nat>, ts: seq<Task>) {
    forall i, j :: 0 <= i < j < |ts| ==> Before(order, ts[i], ts[j])
  }

  function Insert(order: map<string, nat>, t: Task, ts: seq<Task>): (r: seq<Task>)
    ensures |r| == |ts| + 1 && forall x :: x in r <==> x == t || x in ts
  {
    if ts == [] then [t]
    else if Before(order, t, ts[0]) then [t] + ts
    else
      assert ts == [ts[0]] + ts[1..];
      [ts[0]] + Insert(order, t, ts[1..])
  }

  /** What `sort.Slice` leaves: the one arrangement in which each task is before the next. */
  function Sorted(order: map<string, nat>, ts: seq<Task>): (r: seq<Task>)
    ensures |r| == |ts| && forall x :: x in r <==> x in ts
  {
    if ts == [] then []
    else
      assert ts == [ts[0]] + ts[1..];
      Insert(order, ts[0], Sorted(order, ts[1..]))
  }

  lemma {:induction false} InsertSorts(order: map<string, nat>, t: Task, ts: seq<Task>)
    requires Injective(order) && InOrder(order, ts) && forall x :: x in ts ==> x.id != t.id
    ensures InOrder(order, Insert(order, t, ts))
  {
    if ts != [] {
      if Before(order, t, ts[0]) {
        forall j | 0 < j < |ts|
          ensures Before(order, t, ts[j])
        {
          BeforeIsTransitive(order, t, ts[0], ts[j]);
        }
      } else {
        BeforeIsTotal(order, t, ts[0]);
        InsertSorts(order, t, ts[1..]);
        forall x | x in Insert(order, t, ts[1..])
          ensures Before(order, ts[0], x)
        {
        }
      }
    }
  }

  lemma {:induction false} SortedSorts(order: map<string, nat>, ts: seq<Task>)
    requires Injective(order) && DistinctIds(ts)
    ensures InOrder(order, Sorted(order, ts)) && DistinctIds(Sorted(order, ts))
  {
    if ts != [] {
      SortedSorts(order, ts[1..]);
      InsertSorts(order, ts[0], Sorted(order, ts[1..]));
    }
    OrderMeansDistinct(order, Sorted(order, ts), ts);
  }

  lemma OrderMeansDistinct(order: map<string, nat>, r: seq<Task>, ts: seq<Task>)
    requires InOrder(order, r) && DistinctIds(ts) && forall x :: x in r ==> x in ts
    ensures DistinctIds(r)
  {
    forall i, j | 0 <= i < j < |r|
      ensures r[i].id != r[j].id
    {
      assert r[i] in ts && r[j] in ts && Before(order, r[i], r[j]);
      LessIsIrreflexive(r[i].id);
    }
  }

  lemma {:induction false} LessIsIrreflexive(a: string)
    ensures !Less(a, a)
  {
    if a != [] {
      LessIsIrreflexive(a[1..]);
    }
  }

  // ---------------------------------------------------------------- selection

  function Only(ts: seq<Task>, isNew: bool): (r: seq<Task>)
    ensures forall x :: x in r <==> x in ts && x.isNew == isNew
    ensures |r| <= |ts|
  {
    if ts == [] then []
    else
      assert ts == ts[..|ts| - 1] + [ts[|ts| - 1]];
      if ts[|ts| - 1].isNew == isNew then Only(ts[..|ts| - 1], isNew) + [ts[|ts| - 1]]
      else Only(ts[..|ts| - 1], isNew)
  }

  function Min(a: int, b: int): int {
    if a < b then a else b
  }

  function Max(a: int, b: int): int {
    if a < b then b else a
  }

  /**
    How many new and refresh tasks a cycle takes, and whose turn is next at a limit of one. The quota is used up
    exactly, borrowing across classes, and with room for two both classes get a share.
   */
  function Shares(quota: int, news: nat, refreshes: nat, refreshTurn: bool): (r: (nat, nat, bool))
    ensures r.0 <= news && r.1 <= refreshes
    ensures r.0 + r.1 == Max(0, Min(quota, news + refreshes))
    ensures quota >= 2 ==> (news > 0 ==> r.0 > 0) && (refreshes > 0 ==> r.1 > 0)
    ensures quota == 1 && news > 0 && refreshes > 0 ==> r == if refreshTurn then (0, 1, false) else (1, 0, true)
  {
    var limit := Min(quota, news + refreshes);
    if limit <= 0 then (0, 0, refreshTurn)
    else if news == 0 then (0, Min(limit, refreshes), refreshTurn)
    else if refreshes == 0 then (Min(limit, news), 0, refreshTurn)
    else if limit == 1 then (if refreshTurn then (0, 1, false) else (1, 0, true))
    else
      var refreshCount := Min(Max(1, limit / 4), refreshes);
      var newCount := Min(limit - refreshCount, news);
      var extra := Min(limit - refreshCount - newCount, refreshes - refreshCount);
      var left := limit - refreshCount - newCount - extra;
      (newCount + Min(left, news - newCount), refreshCount + extra, refreshTurn)
  }

  /**
    When both classes share, a quarter goes to refreshes, at least one, or whatever the new ones leave, if there are as
    many. The turn moves only when both classes contend for a quota of one.
   */
  lemma RefreshesGetAQuarter(quota: int, news: nat, refreshes: nat, refreshTurn: bool)
    ensures
      var limit, share := Min(quota, news + refreshes), Shares(quota, news, refreshes, refreshTurn);
      && (limit >= 2 && news > 0 && refreshes > 0 ==>
            share.1 == Min(refreshes, Max(Max(1, limit / 4), limit - news)))
      && (quota != 1 || news == 0 || refreshes == 0 ==> share.2 == refreshTurn)
  {
  }

  function SharesOf(st: Scheduler, quota: int, tasks: seq<Task>): (nat, nat, bool) {
    Shares(quota, |Only(tasks, true)|, |Only(tasks, false)|, st.refreshTurn)
  }

  /** A prefix of each class in waiting order. */
  function Selected(st: Scheduler, quota: int, tasks: seq<Task>): seq<Task> {
    var (a, b, _) := SharesOf(st, quota, tasks);
    Sorted(st.waitingOrder, Only(tasks, true))[..a] + Sorted(st.waitingOrder, Only(tasks, false))[..b]
  }

  function IdsOf(ts: seq<Task>): set<string> {
    set t | t in ts :: t.id
  }

  function Unselected(ts: seq<Task>, attempted: set<string>): (r: seq<Task>)
    ensures forall x :: x in r <==> x in ts && x.id !in attempted
  {
    if ts == [] then []
    else
      assert ts == ts[..|ts| - 1] + [ts[|ts| - 1]];
      if ts[|ts| - 1].id in attempted then Unselected(ts[..|ts| - 1], attempted)
      else Unselected(ts[..|ts| - 1], attempted) + [ts[|ts| - 1]]
  }

  /** Numbering a sequence from 0: `next[task.id] = len(next)`. */
  function Numbered(ts: seq<Task>): map<string, nat> {
    if ts == [] then map[]
    else
      var next := Numbered(ts[..|ts| - 1]);
      next[ts[|ts| - 1].id := |next|]
  }

  /** The waiting queue a cycle leaves: the rest in order, then the selected. */
  function NextQueue(st: Scheduler, quota: int, tasks: seq<Task>): seq<Task> {
    var selected := Selected(st, quota, tasks);
    Unselected(Sorted(st.waitingOrder, tasks), IdsOf(selected)) + selected
  }

  function Cycle(st: Scheduler, quota: int, tasks: seq<Task>): Scheduler {
    Scheduler(Numbered(NextQueue(st, quota, tasks)), SharesOf(st, quota, tasks).2)
  }
}
