/**
  The query store as an object (internal/querystate/store.go) and its startup validator
  (internal/querystate/validation.go). Counters are uint64 and wrap; that they never do is proved, not assumed.
 */
module QueryStore {
  import opened Integers
  import opened QueryState
  import opened QueryRuns

  /** `x++` on a uint64. */
  function Inc(x: nat): nat {
    (x + 1) % (MAX_UINT64 + 1)
  }

  /** `h.Count++`, `h.Sum += v` and the bucket loop: no increment wraps below the maximum. */
  method AddValue(h: Histogram, v: real) returns (r: Histogram)
    requires h.count < MAX_UINT64 && |h.buckets| == |BOUNDS| && Ascending(h.buckets, h.count)
    ensures r == Bump(h, v)
  {
    var buckets := h.buckets;
    for i := 0 to |BOUNDS|
      invariant |buckets| == |BOUNDS|
      invariant forall k :: 0 <= k < |BOUNDS| ==>
        buckets[k] == h.buckets[k] + if k < i && v <= BOUNDS[k] then 1 else 0
    {
      if v <= BOUNDS[i] {
        buckets := buckets[i := Inc(buckets[i])];
      }
    }
    r := Histogram(Inc(h.count), h.sum + v, buckets);
    assert r.buckets == Bump(h, v).buckets;
  }

  const MEASURES: seq<Measure> := [Elapsed, Execution, Queued]

  function ObserveAll(hs: map<(Measure, Phase), Histogram>, e: Event, n: nat): map<(Measure, Phase), Histogram>
    requires n <= 3
  {
    if n == 0 then hs else Observe(ObserveAll(hs, e, n - 1), MEASURES[n - 1], e)
  }

  lemma {:induction false} ObserveLeavesRest(hs: map<(Measure, Phase), Histogram>, e: Event, n: nat, k: nat)
    requires n <= k < 3
    ensures HistogramAt(ObserveAll(hs, e, n), MEASURES[k], e.phase) == HistogramAt(hs, MEASURES[k], e.phase)
  {
    if n > 0 {
      ObserveLeavesRest(hs, e, n - 1, k);
    }
  }

  lemma ObserveAllThree(hs: map<(Measure, Phase), Histogram>, e: Event)
    ensures ObserveAll(hs, e, 3) == Observe(Observe(Observe(hs, Elapsed, e), Execution, e), Queued, e)
  {
    assert ObserveAll(hs, e, 1) == Observe(hs, Elapsed, e);
    assert ObserveAll(hs, e, 2) == Observe(ObserveAll(hs, e, 1), Execution, e);
  }

  /** Counting a terminal query into statistics that passed `decodeStats`. */
  method CountTerminal(a: Stats, e: Event) returns (r: Stats)
    requires StatsOk(a) && CountOf(a.completed, e.phase) < MAX_UINT64
    ensures r == Count(a, e)
  {
    var hs := a.histograms;
    for n := 0 to 3
      invariant hs == ObserveAll(a.histograms, e, n)
    {
      var m := MEASURES[n];
      if ValueOf(e, m).Some? {
        ObserveLeavesRest(a.histograms, e, n, n);
        var h := if (m, e.phase) in hs then hs[(m, e.phase)] else NO_VALUES;
        assert h == HistogramAt(a.histograms, m, e.phase);
        var h' := AddValue(h, ValueOf(e, m).value);
        hs := hs[(m, e.phase) := h'];
      }
    }
    ObserveAllThree(a.histograms, e);
    r := a.(completed := a.completed[e.phase := Inc(CountOf(a.completed, e.phase))], histograms := hs);
  }

  class Store {
    const source: string
    const lim: Limits
    var stats: Stats
    var checkpoints: map<string, Checkpoint>
    var events: seq<Entry>
    var lastSequence: nat

    ghost function View(): State
      reads this
    {
      State(stats, checkpoints, events, lastSequence)
    }

    constructor (source: string, lim: Limits)
      ensures View() == FRESH && this.source == source && this.lim == lim
    {
      this.source, this.lim := source, lim;
      stats, checkpoints, events, lastSequence := FRESH.stats, map[], [], 0;
    }

    /** `Record`: one transaction, in the order of the checks of the source. */
    method Record(e: Event, size: nat) returns (outcome: Outcome)
      modifies this
      ensures (View(), outcome) == QueryState.Record(old(View()), lim, source, e, size)
    {
      if !EventOk(e, source) || size > MAX_EVENT_BYTES {
        return Invalid;
      }
      if !StatsOk(stats) {
        return Corrupt;
      }
      var a := stats;
      var when := if e.completed.Some? then e.completed.value else e.submitted;
      if when < a.floor {
        return TooOld;
      }
      var known := e.id in checkpoints;
      if known && (checkpoints[e.id].final || e.observed < checkpoints[e.id].lastFetched) {
        return Ignored;
      }
      if !known && |checkpoints| >= lim.maxCheckpoints {
        return Full;
      }
      var changed := !known || checkpoints[e.id].hash != HashOf(e);
      var queueing := changed && lim.events;
      if queueing && (a.pending >= lim.maxEvents || size > lim.maxBytes - a.bytes) {
        return Full;
      }
      if Terminal(e.phase) && CountOf(a.completed, e.phase) == MAX_UINT64 {
        return Corrupt;
      }
      if a.revision == MAX_UINT64 {
        return Corrupt;
      }
      Write(e, size, queueing, when);
      outcome := Stored;
    }

    /** The writes of a `Record` that got past every check. */
    method Write(e: Event, size: nat, queueing: bool, when: int)
      requires StatsOk(stats) && (Terminal(e.phase) ==> CountOf(stats.completed, e.phase) < MAX_UINT64)
      requires queueing == (lim.events && Changed(checkpoints, e)) && when == When(e)
      modifies this
      ensures View() == Committed(old(View()), lim, e, size)
    {
      var a := stats;
      if queueing {
        lastSequence := lastSequence + 1;
        events := events + [Entry(lastSequence, e, size)];
        a := a.(pending := a.pending + 1, bytes := a.bytes + size);
      }
      if Terminal(e.phase) {
        a := CountTerminal(a, e);
      }
      checkpoints := checkpoints[e.id := Checkpoint(Terminal(e.phase), HashOf(e), e.observed, when)];
      stats := a.(revision := a.revision + 1);
    }

    /** `Prune`: the cursor walk that deletes checkpoints below the floor. */
    method Prune(now: int) returns (outcome: Outcome)
      modifies this
      ensures (View(), outcome) == QueryState.Prune(old(View()), lim, now)
    {
      if !StatsOk(stats) || stats.revision == MAX_UINT64 {
        return Corrupt;
      }
      var floor := now - lim.retention;
      if floor < stats.floor {
        floor := stats.floor;
      }
      var kept, todo := checkpoints, checkpoints.Keys;
      while todo != {}
        invariant todo <= checkpoints.Keys && kept.Keys <= checkpoints.Keys
        invariant forall id :: id in checkpoints ==>
          (id in kept <==> id in todo || checkpoints[id].time >= floor) && (id in kept ==> kept[id] == checkpoints[id])
        decreases todo
      {
        var id :| id in todo;
        todo := todo - {id};
        if kept[id].time < floor {
          kept := kept - {id};
        }
      }
      assert kept == NotBelow(checkpoints, floor);
      checkpoints := kept;
      stats := stats.(floor := floor, revision := stats.revision + 1);
      outcome := Stored;
    }

    method Ack(sequence: nat) returns (outcome: Outcome)
      modifies this
      ensures (View(), outcome) == QueryState.Ack(old(View()), source, sequence)
    {
      var i := Position(events, sequence);
      if i == |events| {
        return Stored;
      }
      if !StatsOk(stats) || !EntryOk(State(stats, checkpoints, events, lastSequence), source, events[i])
         || stats.revision == MAX_UINT64 {
        return Corrupt;
      }
      var pending, bytes := stats.pending - 1, stats.bytes - events[i].size;
      if pending < 0 || bytes < 0 {
        return Corrupt;
      }
      events := events[..i] + events[i + 1..];
      stats := stats.(pending := pending, bytes := bytes, revision := stats.revision + 1);
      outcome := Stored;
    }

    /** `validate`: the read-only walk over checkpoints and events decides exactly `StoreOk`. */
    method Validate() returns (ok: bool)
      ensures ok == StoreOk(View(), source)
    {
      var s := State(stats, checkpoints, events, lastSequence);
      if !StatsOk(stats) {
        return false;
      }
      var todo := checkpoints.Keys;
      while todo != {}
        invariant todo <= checkpoints.Keys
        invariant forall id :: id in checkpoints && id !in todo ==> CheckpointOk(checkpoints[id])
        decreases todo
      {
        var id :| id in todo;
        if !CheckpointOk(checkpoints[id]) {
          return false;
        }
        todo := todo - {id};
      }
      var count, size := 0, 0;
      for i := 0 to |events|
        invariant count == i && size == Sizes(events[..i]) && size <= MAX_INT64
        invariant forall k :: 0 <= k < i ==> EntryOk(s, source, events[k])
      {
        if !EntryOk(s, source, events[i]) {
          return false;
        }
        assert events[..i + 1] == events[..i] + [events[i]];
        SizesAppend(events[..i], events[i]);
        if size > MAX_INT64 - events[i].size {
          SizesGrow(events, i + 1);
          return false;
        }
        count, size := count + 1, size + events[i].size;
      }
      assert events[..|events|] == events;
      return count == stats.pending && size == stats.bytes;
    }

    static lemma SizesGrow(es: seq<Entry>, i: nat)
      requires i <= |es|
      ensures Sizes(es[..i]) <= Sizes(es)
    {
      assert es == es[..i] + es[i..];
      SizesConcat(es[..i], es[i..]);
    }
  }
}
