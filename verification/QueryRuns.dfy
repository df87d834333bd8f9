/**
  Every run of the query state store: `Record` from the live and the backfill pipeline, `Prune`, `Ack` in any
  order, and reopening, with clocks that may step. The ledger remembers which events were counted.
 */
module QueryRuns {
  import opened Runs
  import opened Sets
  import opened Integers
  import opened QueryState

  datatype Ledger = Ledger(s: State, counted: seq<Event>)

  datatype Action =
    | Recording(lim: Limits, e: Event, size: nat)
    | Pruning(lim: Limits, now: int)
    | Acking(sequence: nat)
    | Reopening(lim: Limits, now: int)

  /** Whether this `Record` counts a terminal query. */
  predicate Counts(s: State, lim: Limits, source: string, e: Event, size: nat) {
    Record(s, lim, source, e, size).1 == Stored && Terminal(e.phase)
  }

  function AfterRecord(l: Ledger, source: string, lim: Limits, e: Event, size: nat): Ledger {
    Ledger(Record(l.s, lim, source, e, size).0,
           if Counts(l.s, lim, source, e, size) then l.counted + [e] else l.counted)
  }

  function Step(source: string, l: Ledger, a: Action): Ledger {
    match a
    case Recording(lim, e, size) => if lim.Valid() then AfterRecord(l, source, lim, e, size) else l
    case Pruning(lim, now) => if lim.Valid() then l.(s := Prune(l.s, lim, now).0) else l
    case Acking(sequence) => l.(s := Ack(l.s, source, sequence).0)
    case Reopening(lim, now) => if lim.Valid() && StoreOk(l.s, source) then l.(s := Prune(l.s, lim, now).0) else l
  }

  type Trace = Past<Action>

  function Run(source: string, tr: Trace): Ledger {
    match tr
    case Start => Ledger(FRESH, [])
    case Then(before, a) => Step(source, Run(source, before), a)
  }

  // ---------------------------------------------------------------- the startup validator, as a relation

  function Sizes(es: seq<Entry>): nat {
    if es == [] then 0 else Sizes(es[..|es| - 1]) + es[|es| - 1].size
  }

  predicate CheckpointOk(cp: Checkpoint) {
    cp.lastFetched != 0 && cp.time != 0
  }

  /** What `validate` demands of a store before it opens. */
  predicate StoreOk(s: State, source: string) {
    && StatsOk(s.stats)
    && (forall id :: id in s.checkpoints ==> CheckpointOk(s.checkpoints[id]))
    && (forall i :: 0 <= i < |s.events| ==> EntryOk(s, source, s.events[i]))
    && s.stats.pending == |s.events| && s.stats.bytes == Sizes(s.events) && Sizes(s.events) <= MAX_INT64
  }

  // ---------------------------------------------------------------- books of the event outbox

  /** The bucket order and the two counters. */
  ghost predicate BooksInv(s: State) {
    && (forall i, j :: 0 <= i < j < |s.events| ==> s.events[i].sequence < s.events[j].sequence)
    && (forall i :: 0 <= i < |s.events| ==> 0 < s.events[i].sequence <= s.lastSequence)
    && s.stats.pending == |s.events| && s.stats.bytes == Sizes(s.events) <= MAX_INT64
  }

  /** Every checkpoint is at or above the floor; every queued event is valid and still matches its checkpoint. */
  ghost predicate MatchInv(s: State, source: string) {
    && (forall id :: id in s.checkpoints ==> CheckpointOk(s.checkpoints[id]) && s.checkpoints[id].time >= s.stats.floor)
    && (forall i :: 0 <= i < |s.events| ==>
          s.events[i].size <= MAX_EVENT_BYTES && EventOk(s.events[i].event, source)
          && Matches(s.checkpoints, s.events[i].event, s.stats.floor))
  }

  lemma SizesAppend(es: seq<Entry>, n: Entry)
    ensures Sizes(es + [n]) == Sizes(es) + n.size
  {
    assert (es + [n])[..|es|] == es;
  }

  lemma {:induction false} SizesConcat(a: seq<Entry>, b: seq<Entry>)
    ensures Sizes(a + b) == Sizes(a) + Sizes(b)
  {
    if b == [] {
      assert a + b == a;
    } else {
      SizesConcat(a, b[..|b| - 1]);
      assert (a + b)[..|a + b| - 1] == a + b[..|b| - 1];
    }
  }

  lemma RecordKeepsBooks(s: State, lim: Limits, source: string, e: Event, size: nat)
    requires BooksInv(s) && lim.Valid()
    ensures BooksInv(Record(s, lim, source, e, size).0)
  {
    SizesAppend(s.events, Entry(s.lastSequence + 1, e, size));
  }

  lemma {:induction false} SizesWithout(es: seq<Entry>, i: nat)
    requires i < |es|
    ensures Sizes(es) == Sizes(es[..i] + es[i + 1..]) + es[i].size
  {
    var front, back := es[..i], es[i + 1..];
    assert es == front + [es[i]] + back;
    SizesConcat(front + [es[i]], back);
    SizesAppend(front, es[i]);
    SizesConcat(front, back);
  }

  lemma RemovalKeepsBooks(s: State, i: nat, a: Stats)
    requires BooksInv(s) && i < |s.events|
    requires a.pending == s.stats.pending - 1 && a.bytes == s.stats.bytes - s.events[i].size
    ensures BooksInv(s.(events := s.events[..i] + s.events[i + 1..], stats := a))
  {
    SizesWithout(s.events, i);
    var es, rest := s.events, s.events[..i] + s.events[i + 1..];
    forall k | 0 <= k < |rest|
      ensures rest[k] == es[if k < i then k else k + 1]
    {
    }
  }

  lemma AckKeepsBooks(s: State, source: string, sequence: nat)
    requires BooksInv(s)
    ensures BooksInv(Ack(s, source, sequence).0)
  {
    var i := Position(s.events, sequence);
    if i < |s.events| && Ack(s, source, sequence).0 != s {
      RemovalKeepsBooks(s, i, Ack(s, source, sequence).0.stats);
    }
  }

  lemma RecordKeepsMatches(s: State, lim: Limits, source: string, e: Event, size: nat)
    requires MatchInv(s, source)
    ensures MatchInv(Record(s, lim, source, e, size).0, source)
  {
    if Record(s, lim, source, e, size).1 == Stored {
      CommitKeepsMatches(s, lim, source, e, size);
    }
  }

  /** A non-settled id has no queued terminal event at or above the floor, so its checkpoint may be replaced. */
  lemma CommitKeepsMatches(s: State, lim: Limits, source: string, e: Event, size: nat)
    requires MatchInv(s, source) && EventOk(e, source) && size <= MAX_EVENT_BYTES
    requires When(e) >= s.stats.floor && !Settled(s.checkpoints, e)
    ensures MatchInv(Committed(s, lim, e, size), source)
  {
    var s' := Committed(s, lim, e, size);
    forall i | 0 <= i < |s.events|
      ensures Matches(s'.checkpoints, s.events[i].event, s.stats.floor)
    {
      assert Matches(s.checkpoints, s.events[i].event, s.stats.floor);
    }
  }

  lemma PruneKeepsMatches(s: State, lim: Limits, source: string, now: int)
    requires MatchInv(s, source)
    ensures MatchInv(Prune(s, lim, now).0, source)
    ensures Prune(s, lim, now).0.stats.floor >= s.stats.floor
  {
    var s' := Prune(s, lim, now).0;
    forall i | 0 <= i < |s.events|
      ensures Matches(s'.checkpoints, s.events[i].event, s'.stats.floor)
    {
      assert Matches(s.checkpoints, s.events[i].event, s.stats.floor);
    }
  }

  lemma AckKeepsMatches(s: State, source: string, sequence: nat)
    requires MatchInv(s, source)
    ensures MatchInv(Ack(s, source, sequence).0, source)
  {
    var i := Position(s.events, sequence);
    if i < |s.events| {
      var rest := s.events[..i] + s.events[i + 1..];
      assert forall k :: 0 <= k < |rest| ==> rest[k] == s.events[if k < i then k else k + 1];
    }
  }

  lemma {:induction false} RunKeepsBooks(source: string, tr: Trace)
    ensures BooksInv(Run(source, tr).s) && MatchInv(Run(source, tr).s, source)
  {
    if tr.Then? {
      var s := Run(source, tr.before).s;
      RunKeepsBooks(source, tr.before);
      match tr.action
      case Recording(lim, e, size) =>
        if lim.Valid() {
          RecordKeepsBooks(s, lim, source, e, size);
          RecordKeepsMatches(s, lim, source, e, size);
        }
      case Pruning(lim, now) => PruneKeepsMatches(s, lim, source, now);
      case Acking(sequence) =>
        AckKeepsBooks(s, source, sequence);
        AckKeepsMatches(s, source, sequence);
      case Reopening(lim, now) => PruneKeepsMatches(s, lim, source, now);
    }
  }

  // ---------------------------------------------------------------- counters and histograms

  function CountPhase(es: seq<Event>, p: Phase): nat {
    if es == [] then 0 else CountPhase(es[..|es| - 1], p) + if es[|es| - 1].phase == p then 1 else 0
  }

  /** The durations of one measure among the counted queries of one phase. */
  function Values(es: seq<Event>, m: Measure, p: Phase): seq<real> {
    if es == [] then []
    else
      var e := es[|es| - 1];
      if e.phase == p && ValueOf(e, m).Some? then Values(es[..|es| - 1], m, p) + [ValueOf(e, m).value]
      else Values(es[..|es| - 1], m, p)
  }

  function Sum(vs: seq<real>): real {
    if vs == [] then 0.0 else Sum(vs[..|vs| - 1]) + vs[|vs| - 1]
  }

  function AtMost(vs: seq<real>, bound: real): nat {
    if vs == [] then 0 else AtMost(vs[..|vs| - 1], bound) + if vs[|vs| - 1] <= bound then 1 else 0
  }

  /** The histogram of some values, computed directly. */
  function Direct(vs: seq<real>): Histogram {
    Histogram(|vs|, Sum(vs), seq(|BOUNDS|, i requires 0 <= i < |BOUNDS| => AtMost(vs, BOUNDS[i])))
  }

  ghost predicate TallyInv(a: Stats, counted: seq<Event>) {
    && (forall p :: CountOf(a.completed, p) == CountPhase(counted, p))
    && (forall m, p :: HistogramAt(a.histograms, m, p) == Direct(Values(counted, m, p)))
    && (forall p :: p in a.completed ==> Terminal(p) && a.completed[p] <= MAX_UINT64)
    && (forall k :: k in a.histograms ==> Terminal(k.1))
    && 0 < a.revision <= MAX_UINT64
  }

  ghost predicate CountedOk(counted: seq<Event>, source: string) {
    forall i :: 0 <= i < |counted| ==> EventOk(counted[i], source) && Terminal(counted[i].phase)
  }

  lemma BumpDirect(vs: seq<real>, v: real)
    ensures Bump(Direct(vs), v) == Direct(vs + [v])
  {
    assert (vs + [v])[..|vs|] == vs;
  }

  lemma ObserveAt(hs: map<(Measure, Phase), Histogram>, n: Measure, e: Event, m: Measure, p: Phase)
    ensures HistogramAt(Observe(hs, n, e), m, p) ==
            if m == n && p == e.phase && ValueOf(e, n).Some? then Bump(HistogramAt(hs, m, p), ValueOf(e, n).value)
            else HistogramAt(hs, m, p)
  {
  }

  lemma CountKeepsHistogram(a: Stats, counted: seq<Event>, e: Event, m: Measure, p: Phase)
    requires HistogramAt(a.histograms, m, p) == Direct(Values(counted, m, p))
    ensures HistogramAt(Count(a, e).histograms, m, p) == Direct(Values(counted + [e], m, p))
  {
    var h1 := Observe(a.histograms, Elapsed, e);
    var h2 := Observe(h1, Execution, e);
    ObserveAt(a.histograms, Elapsed, e, m, p);
    ObserveAt(h1, Execution, e, m, p);
    ObserveAt(h2, Queued, e, m, p);
    assert (counted + [e])[..|counted|] == counted;
    if p == e.phase && ValueOf(e, m).Some? {
      BumpDirect(Values(counted, m, p), ValueOf(e, m).value);
    }
  }

  lemma CountKeepsTally(a: Stats, counted: seq<Event>, e: Event)
    requires TallyInv(a, counted) && Terminal(e.phase) && CountOf(a.completed, e.phase) < MAX_UINT64
    ensures TallyInv(Count(a, e), counted + [e])
  {
    var a' := Count(a, e);
    assert (counted + [e])[..|counted|] == counted;
    forall m, p
      ensures HistogramAt(a'.histograms, m, p) == Direct(Values(counted + [e], m, p))
    {
      CountKeepsHistogram(a, counted, e, m, p);
    }
    assert forall k :: k in a'.histograms ==> k in a.histograms || k.1 == e.phase;
  }

  lemma RecordKeepsTally(l: Ledger, source: string, lim: Limits, e: Event, size: nat)
    requires TallyInv(l.s.stats, l.counted) && CountedOk(l.counted, source)
    ensures
      var l' := AfterRecord(l, source, lim, e, size);
      TallyInv(l'.s.stats, l'.counted) && CountedOk(l'.counted, source)
  {
    if Counts(l.s, lim, source, e, size) {
      CountKeepsTally(Queue(l.s, lim, e, size).stats, l.counted, e);
    }
  }

  lemma {:induction false} RunKeepsTally(source: string, tr: Trace)
    ensures TallyInv(Run(source, tr).s.stats, Run(source, tr).counted) && CountedOk(Run(source, tr).counted, source)
  {
    if tr.Then? {
      var l := Run(source, tr.before);
      RunKeepsTally(source, tr.before);
      match tr.action
      case Recording(lim, e, size) => RecordKeepsTally(l, source, lim, e, size);
      case Pruning(lim, now) =>
      case Acking(sequence) =>
      case Reopening(lim, now) =>
    }
  }

  /**
    Histogram refinement. After every run each stored histogram is the direct count, sum and cumulative bucket
    counts of the durations of the counted queries, and every counter is the number of counted queries of its phase.
   */
  lemma {:induction false} HistogramsAreExact(source: string, tr: Trace, m: Measure, p: Phase)
    ensures
      var l := Run(source, tr);
      && HistogramAt(l.s.stats.histograms, m, p) == Direct(Values(l.counted, m, p))
      && CountOf(l.s.stats.completed, p) == CountPhase(l.counted, p)
      && HistogramAt(l.s.stats.histograms, Elapsed, p).count == CountOf(l.s.stats.completed, p)
  {
    RunKeepsTally(source, tr);
    AllHaveElapsed(Run(source, tr).counted, source, p);
  }

  lemma {:induction false} AllHaveElapsed(counted: seq<Event>, source: string, p: Phase)
    requires CountedOk(counted, source)
    ensures |Values(counted, Elapsed, p)| == CountPhase(counted, p)
  {
    if counted != [] {
      AllHaveElapsed(counted[..|counted| - 1], source, p);
    }
  }

  lemma {:induction false} ValuesAreFew(counted: seq<Event>, source: string, m: Measure, p: Phase)
    requires CountedOk(counted, source)
    ensures |Values(counted, m, p)| <= CountPhase(counted, p)
    ensures forall i :: 0 <= i < |Values(counted, m, p)| ==> Values(counted, m, p)[i] >= 0.0
  {
    if counted != [] {
      ValuesAreFew(counted[..|counted| - 1], source, m, p);
    }
  }

  lemma {:induction false} SumOfNonNegatives(vs: seq<real>)
    requires forall i :: 0 <= i < |vs| ==> vs[i] >= 0.0
    ensures Sum(vs) >= 0.0
  {
    if vs != [] {
      SumOfNonNegatives(vs[..|vs| - 1]);
    }
  }

  lemma {:induction false} AtMostMonotone(vs: seq<real>, low: real, high: real)
    requires low <= high
    ensures AtMost(vs, low) <= AtMost(vs, high) <= |vs|
  {
    if vs != [] {
      AtMostMonotone(vs[..|vs| - 1], low, high);
    }
  }

  lemma BoundsIncrease()
    ensures forall i, j :: 0 <= i < j < |BOUNDS| ==> BOUNDS[i] < BOUNDS[j]
  {
  }

  lemma DirectIsOk(vs: seq<real>, completed: nat)
    requires |vs| <= completed && forall i :: 0 <= i < |vs| ==> vs[i] >= 0.0
    ensures HistogramOk(Direct(vs), completed)
  {
    SumOfNonNegatives(vs);
    BoundsIncrease();
    forall i, j | 0 <= i < j < |BOUNDS|
      ensures AtMost(vs, BOUNDS[i]) <= AtMost(vs, BOUNDS[j]) <= |vs|
    {
      AtMostMonotone(vs, BOUNDS[i], BOUNDS[j]);
    }
    forall i | 0 <= i < |BOUNDS|
      ensures AtMost(vs, BOUNDS[i]) <= |vs|
    {
      AtMostMonotone(vs, BOUNDS[i], BOUNDS[i]);
    }
  }

  lemma TallyIsOk(a: Stats, counted: seq<Event>, source: string)
    requires TallyInv(a, counted) && CountedOk(counted, source) && a.pending >= 0 && a.bytes >= 0
    ensures StatsOk(a)
  {
    forall k | k in a.histograms
      ensures HistogramOk(a.histograms[k], CountOf(a.completed, k.1))
    {
      ValuesAreFew(counted, source, k.0, k.1);
      assert a.histograms[k] == HistogramAt(a.histograms, k.0, k.1);
      DirectIsOk(Values(counted, k.0, k.1), CountOf(a.completed, k.1));
    }
  }

  /** Every reachable store passes the startup validator, so a restart never refuses what the program wrote. */
  lemma {:induction false} ReachableStoreIsValid(source: string, tr: Trace)
    ensures StoreOk(Run(source, tr).s, source)
  {
    var l := Run(source, tr);
    RunKeepsBooks(source, tr);
    RunKeepsTally(source, tr);
    TallyIsOk(l.s.stats, l.counted, source);
  }

  // ---------------------------------------------------------------- exactly-once counting

  /** Upstream reports one completion time per query. */
  predicate OneCompletion(tr: Trace, completionOf: string -> int) {
    tr.Then? ==>
      && OneCompletion(tr.before, completionOf)
      && (tr.action.Recording? && Terminal(tr.action.e.phase) && tr.action.e.completed.Some? ==>
            tr.action.e.completed.value == completionOf(tr.action.e.id))
  }

  /** A terminal event that `Record` accepts: it returns without an error. */
  predicate Accepts(s: State, lim: Limits, source: string, e: Event, size: nat) {
    lim.Valid() && Terminal(e.phase) && Record(s, lim, source, e, size).1 in {Stored, Ignored}
  }

  /** The guard that drops a terminal event: the checkpoint is not final and was fetched after this observation. */
  predicate Overtaken(cps: map<string, Checkpoint>, e: Event) {
    e.id in cps && !cps[e.id].final && e.observed < cps[e.id].lastFetched
  }

  /** The queries with an accepted terminal event. */
  function Submitted(source: string, tr: Trace): set<string> {
    if tr.Start? then {}
    else
      var a := tr.action;
      Submitted(source, tr.before) +
      if a.Recording? && Accepts(Run(source, tr.before).s, a.lim, source, a.e, a.size) then {a.e.id} else {}
  }

  /** The queries with an accepted terminal event that was not overtaken. */
  function Reported(source: string, tr: Trace): set<string> {
    if tr.Start? then {}
    else
      var s, a := Run(source, tr.before).s, tr.action;
      Reported(source, tr.before) +
      if a.Recording? && Accepts(s, a.lim, source, a.e, a.size) && !Overtaken(s.checkpoints, a.e) then {a.e.id} else {}
  }

  function Ids(es: seq<Event>): set<string> {
    set i | 0 <= i < |es| :: es[i].id
  }

  /**
    Every counted query has a final checkpoint or completed before the floor, no query is counted twice, and
    the reported queries are exactly the counted ones.
   */
  ghost predicate OnceInv(l: Ledger, reported: set<string>, completionOf: string -> int) {
    && (forall i, j :: 0 <= i < j < |l.counted| ==> l.counted[i].id != l.counted[j].id)
    && reported == Ids(l.counted)
    && (forall id :: id in reported ==> AccountedFor(l.s, id, completionOf))
    && (forall id :: id in l.s.checkpoints && l.s.checkpoints[id].final ==>
          id in reported && l.s.checkpoints[id].time == completionOf(id))
  }

  lemma IdsAppend(es: seq<Event>, e: Event)
    ensures Ids(es + [e]) == Ids(es) + {e.id}
  {
    forall id | id in Ids(es)
      ensures id in Ids(es + [e])
    {
      var i :| 0 <= i < |es| && es[i].id == id;
      assert (es + [e])[i].id == id;
    }
    assert (es + [e])[|es|] == e;
  }

  lemma CountingOnce(l: Ledger, reported: set<string>, lim: Limits, source: string, e: Event, size: nat,
                     completionOf: string -> int)
    requires OnceInv(l, reported, completionOf) && Counts(l.s, lim, source, e, size)
    requires e.completed.Some? && e.completed.value == completionOf(e.id)
    ensures OnceInv(AfterRecord(l, source, lim, e, size), reported + {e.id}, completionOf)
  {
    assert e.id !in reported;
    assert forall i :: 0 <= i < |l.counted| ==> l.counted[i].id in Ids(l.counted);
    IdsAppend(l.counted, e);
    var l' := AfterRecord(l, source, lim, e, size);
    assert l'.s == Committed(l.s, lim, e, size);
    assert l'.s.checkpoints == l.s.checkpoints[e.id := CheckpointFor(e)];
  }

  lemma RecordKeepsOnce(l: Ledger, reported: set<string>, lim: Limits, source: string, e: Event, size: nat,
                        completionOf: string -> int)
    requires OnceInv(l, reported, completionOf) && lim.Valid()
    requires Terminal(e.phase) && e.completed.Some? ==> e.completed.value == completionOf(e.id)
    ensures
      var more := if Accepts(l.s, lim, source, e, size) && !Overtaken(l.s.checkpoints, e) then {e.id} else {};
      OnceInv(AfterRecord(l, source, lim, e, size), reported + more, completionOf)
  {
    if Counts(l.s, lim, source, e, size) {
      CountingOnce(l, reported, lim, source, e, size, completionOf);
    } else {
      NotCounting(l, lim, source, e, size);
      assert Accepts(l.s, lim, source, e, size) && !Overtaken(l.s.checkpoints, e) ==> reported + {e.id} == reported;
    }
  }

  /**
    A terminal event that is not counted changes no final checkpoint; if accepted, its query is final already or it
    is overtaken.
   */
  lemma NotCounting(l: Ledger, lim: Limits, source: string, e: Event, size: nat)
    requires !Counts(l.s, lim, source, e, size)
    ensures
      var l' := AfterRecord(l, source, lim, e, size);
      && l'.counted == l.counted && l'.s.stats.floor == l.s.stats.floor
      && (Accepts(l.s, lim, source, e, size) && !Overtaken(l.s.checkpoints, e) ==>
          e.id in l.s.checkpoints && l.s.checkpoints[e.id].final)
      && (forall id :: (id in l'.s.checkpoints && l'.s.checkpoints[id].final) <==>
          (id in l.s.checkpoints && l.s.checkpoints[id].final))
      && (forall id :: id in l.s.checkpoints && l.s.checkpoints[id].final ==>
          l'.s.checkpoints[id] == l.s.checkpoints[id])
  {
  }

  lemma {:induction false} RunCountsOnce(source: string, tr: Trace, completionOf: string -> int)
    requires OneCompletion(tr, completionOf)
    ensures OnceInv(Run(source, tr), Reported(source, tr), completionOf)
  {
    if tr.Then? {
      var l := Run(source, tr.before);
      RunCountsOnce(source, tr.before, completionOf);
      match tr.action
      case Recording(lim, e, size) =>
        if lim.Valid() {
          RecordKeepsOnce(l, Reported(source, tr.before), lim, source, e, size, completionOf);
        }
      case Pruning(lim, now) =>
      case Acking(sequence) =>
      case Reopening(lim, now) =>
    }
  }

  function Total(a: Stats): nat {
    CountOf(a.completed, Finished) + CountOf(a.completed, Failed) + CountOf(a.completed, Canceled)
  }

  lemma {:induction false} PhasesAddUp(es: seq<Event>)
    requires forall i :: 0 <= i < |es| ==> Terminal(es[i].phase)
    ensures CountPhase(es, Finished) + CountPhase(es, Failed) + CountPhase(es, Canceled) == |es|
  {
    if es != [] {
      PhasesAddUp(es[..|es| - 1]);
    }
  }

  lemma {:induction false} DistinctIds(es: seq<Event>)
    requires forall i, j :: 0 <= i < j < |es| ==> es[i].id != es[j].id
    ensures |Ids(es)| == |es|
  {
    if es != [] {
      var front, e := es[..|es| - 1], es[|es| - 1];
      DistinctIds(front);
      assert es == front + [e];
      IdsAppend(front, e);
      assert e.id !in Ids(front);
    }
  }

  /** Still final, or completed before the floor. */
  predicate AccountedFor(s: State, id: string, completionOf: string -> int) {
    (id in s.checkpoints && s.checkpoints[id].final) || completionOf(id) < s.stats.floor
  }

  /** The counters add up to the number of these queries, and each is accounted for. */
  ghost predicate CountedOnce(s: State, reported: set<string>, completionOf: string -> int) {
    Total(s.stats) == |reported| && forall id :: id in reported ==> AccountedFor(s, id, completionOf)
  }

  /**
    Exactly-once counting. When upstream reports one completion time per query, then after every run, across
    pruning, restarts, clock steps and both pipelines, the completed counters add up to the number of distinct
    queries reported, each of them still final or completed before the floor.
   */
  lemma {:induction false} EveryQueryCountsOnce(source: string, tr: Trace, completionOf: string -> int)
    requires OneCompletion(tr, completionOf)
    ensures CountedOnce(Run(source, tr).s, Reported(source, tr), completionOf)
  {
    TotalIsCounted(source, tr);
    RunCountsOnce(source, tr, completionOf);
    OnceMeansCountedOnce(Run(source, tr), Reported(source, tr), completionOf);
  }

  lemma OnceMeansCountedOnce(l: Ledger, reported: set<string>, completionOf: string -> int)
    requires OnceInv(l, reported, completionOf) && Total(l.s.stats) == |l.counted|
    ensures CountedOnce(l.s, reported, completionOf)
  {
    DistinctIds(l.counted);
  }

  lemma {:induction false} ReportedIsSubmitted(source: string, tr: Trace)
    ensures Reported(source, tr) <= Submitted(source, tr)
  {
    if tr.Then? {
      ReportedIsSubmitted(source, tr.before);
    }
  }

  /** The total reaches the number of submitted queries if and only if all of them were reported. */
  predicate TotalIsShortOfLost(total: nat, submitted: set<string>, reported: set<string>) {
    total <= |submitted| && (total == |submitted| <==> submitted <= reported)
  }

  /**
    Exactly when the counters account for every query with an accepted terminal event: if and only if each of them
    had one that was not overtaken. Otherwise they fall short.
   */
  lemma {:induction false} AllAreCountedExactlyWhenNoneIsLost(source: string, tr: Trace, completionOf: string -> int)
    requires OneCompletion(tr, completionOf)
    ensures TotalIsShortOfLost(Total(Run(source, tr).s.stats), Submitted(source, tr), Reported(source, tr))
  {
    EveryQueryCountsOnce(source, tr, completionOf);
    ReportedIsSubmitted(source, tr);
    CountedIsShortOfLost(Run(source, tr).s, Submitted(source, tr), Reported(source, tr), completionOf);
  }

  lemma CountedIsShortOfLost(s: State, submitted: set<string>, reported: set<string>, completionOf: string -> int)
    requires CountedOnce(s, reported, completionOf) && reported <= submitted
    ensures TotalIsShortOfLost(Total(s.stats), submitted, reported)
  {
    SameCount(reported, submitted);
  }

  lemma SameCount(a: set<string>, b: set<string>)
    requires a <= b
    ensures |a| <= |b| && (|a| == |b| <==> b <= a)
  {
    SubsetIsSmaller(a, b);
    if |a| == |b| {
      LargeSubsetIsAll(a, b);
    } else if b <= a {
      SubsetIsSmaller(b, a);
    }
  }

  /** The floor never moves back. */
  lemma FloorNeverDrops(source: string, tr: Trace)
    requires tr.Then?
    ensures Run(source, tr).s.stats.floor >= Run(source, tr.before).s.stats.floor
  {
    var s := Run(source, tr.before).s;
    match tr.action
    case Recording(lim, e, size) => RecordKeepsFloor(s, lim, source, e, size);
    case Pruning(lim, now) =>
    case Acking(sequence) =>
    case Reopening(lim, now) =>
  }

  lemma RecordKeepsFloor(s: State, lim: Limits, source: string, e: Event, size: nat)
    ensures Record(s, lim, source, e, size).0.stats.floor == s.stats.floor
  {
  }

  /**
    Exactly when an accepted terminal event leaves its query final: if and only if it is not overtaken. An overtaken
    one changes nothing, and no error says so.
   */
  lemma StaleTerminalIsDropped(s: State, lim: Limits, source: string, e: Event, size: nat)
    requires Accepts(s, lim, source, e, size)
    ensures
      var s' := Record(s, lim, source, e, size).0;
      && ((e.id in s'.checkpoints && s'.checkpoints[e.id].final) <==> !Overtaken(s.checkpoints, e))
      && (Overtaken(s.checkpoints, e) ==> s' == s)
  {
  }

  /** A valid event no checkpoint knows, in a store with room, is stored. */
  lemma UnknownIsStored(s: State, source: string, lim: Limits, e: Event, size: nat)
    requires !lim.events && EventOk(e, source) && size <= MAX_EVENT_BYTES && StatsOk(s.stats) && s.checkpoints == map[]
    requires lim.maxCheckpoints > 0 && When(e) >= s.stats.floor && s.stats.revision < MAX_UINT64
    requires Terminal(e.phase) ==> CountOf(s.stats.completed, e.phase) < MAX_UINT64
    ensures Record(s, lim, source, e, size) == (Committed(s, lim, e, size), Stored)
    ensures Committed(s, lim, e, size).checkpoints == map[e.id := CheckpointFor(e)]
    ensures Committed(s, lim, e, size).stats.floor == s.stats.floor
  {
  }

  /**
    Any terminal event observed before a running one of the same query can be lost: recorded after it, as after a clock
    step or by the slower of the two pipelines, it is accepted and never counted.
   */
  lemma {:induction false} OvertakenTerminalIsLost(source: string, running: Event, terminal: Event) returns (tr: Trace)
    requires EventOk(running, source) && EventOk(terminal, source) && !Terminal(running.phase)
    requires Terminal(terminal.phase)
    requires running.id == terminal.id && terminal.observed < running.observed && When(running) >= 0
    requires When(terminal) >= 0
    ensures Submitted(source, tr) == {terminal.id} && Reported(source, tr) == {}
    ensures Total(Run(source, tr).s.stats) == 0
  {
    var lim := Limits(1, 1, 1, 1, false);
    var t0: Trace := Start;
    var t1 := Then(t0, Recording(lim, running, 1));
    tr := Then(t1, Recording(lim, terminal, 1));
    var s0, s1 := FRESH, Committed(FRESH, lim, running, 1);
    UnknownIsStored(s0, source, lim, running, 1);
    assert Run(source, t0) == Ledger(s0, []) && Submitted(source, t0) == Reported(source, t0) == {};
    assert Run(source, t1) == Ledger(s1, []) && Submitted(source, t1) == Reported(source, t1) == {};
    ReachableStoreIsValid(source, t1);
    assert Record(s1, lim, source, terminal, 1) == (s1, Ignored) && Overtaken(s1.checkpoints, terminal);
    TotalIsCounted(source, tr);
  }

  lemma {:induction false} TotalIsCounted(source: string, tr: Trace)
    ensures Total(Run(source, tr).s.stats) == |Run(source, tr).counted|
  {
    RunKeepsTally(source, tr);
    PhasesAddUp(Run(source, tr).counted);
  }

  /**
    The assumption is exact: whenever upstream could report two completion times for one query, some run
    prunes it in between and counts it twice.
   */
  lemma {:induction false} TwoCompletionsCanCountTwice(source: string, first: Event, again: Event) returns (tr: Trace)
    requires EventOk(first, source) && EventOk(again, source) && Terminal(first.phase) && Terminal(again.phase)
    requires first.id == again.id && 0 < first.completed.value < again.completed.value
    ensures Total(Run(source, tr).s.stats) == 2 && Reported(source, tr) == {first.id}
  {
    var lim := Limits(1, 1, 1, 1, false);
    var t0: Trace := Start;
    var t1 := Then(t0, Recording(lim, first, 1));
    var t2 := Then(t1, Pruning(lim, first.completed.value + 2));
    tr := Then(t2, Recording(lim, again, 1));
    var s1 := Committed(FRESH, lim, first, 1);
    assert Run(source, t1) == Ledger(s1, [first]) && Reported(source, t1) == {first.id} by {
      UnknownIsStored(FRESH, source, lim, first, 1);
      assert Run(source, t0) == Ledger(FRESH, []) && Reported(source, t0) == {};
    }
    ReachableStoreIsValid(source, t1);
    var l2 := Run(source, t2);
    assert l2.s.checkpoints == map[] && l2.s.stats.floor == first.completed.value + 1 && l2.counted == [first];
    assert Reported(source, t2) == {first.id};
    ReachableStoreIsValid(source, t2);
    TotalIsCounted(source, t2);
    assert CountOf(l2.s.stats.completed, again.phase) <= Total(l2.s.stats);
    UnknownIsStored(l2.s, source, lim, again, 1);
    assert Run(source, tr).counted == [first] + [again];
    TotalIsCounted(source, tr);
  }
}
