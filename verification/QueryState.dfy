/**
  The query state store (internal/querystate/store.go): checkpoints per query, an optional event outbox, and
  counters and histograms of terminal queries, under a retention floor that never moves back.

  Durations and their sums are reals, an event hash is the event itself without its observation time
  (SHA-256 taken as injective), and encoded sizes are arbitrary numbers.
 */
module QueryState {
  import opened Options
  import opened Integers

  const MAX_EVENT_BYTES: nat := 65536
  const MAX_DURATION: real := 9007199254740.991

  /** The histogram bounds, in seconds. */
  const BOUNDS: seq<real> := [0.01, 0.05, 0.1, 0.5, 1.0, 5.0, 10.0, 30.0, 60.0, 300.0]

  datatype Phase = Finished | Failed | Canceled | Running(name: string)

  predicate Terminal(p: Phase) {
    !p.Running?
  }

  /**
    `textOk`: the id, user and source texts pass their character and length checks; `rest` is the remaining content.
   */
  datatype Event = Event(
    source: string, id: string, textOk: bool, phase: Phase, submitted: int, completed: Option<int>, observed: int,
    elapsed: Option<real>, queued: Option<real>, execution: Option<real>, rest: nat)

  predicate DurationOk(v: Option<real>) {
    v.Some? ==> 0.0 <= v.value <= MAX_DURATION
  }

  /** `validateEvent`. */
  predicate EventOk(e: Event, source: string) {
    && e.source == source && e.textOk && e.submitted != 0 && e.observed != 0
    && (e.completed.Some? ==> e.completed.value != 0 && e.completed.value >= e.submitted)
    && (Terminal(e.phase) ==> e.completed.Some? && e.elapsed.Some?)
    && DurationOk(e.elapsed) && DurationOk(e.queued) && DurationOk(e.execution)
  }

  /** `eventHash`: everything but the observation time. */
  function HashOf(e: Event): Event {
    e.(observed := 0)
  }

  function When(e: Event): int {
    if e.completed.Some? then e.completed.value else e.submitted
  }

  datatype Measure = Elapsed | Execution | Queued

  function ValueOf(e: Event, m: Measure): Option<real> {
    match m
    case Elapsed => e.elapsed
    case Execution => e.execution
    case Queued => e.queued
  }

  datatype Histogram = Histogram(count: nat, sum: real, buckets: seq<nat>)

  const NO_VALUES: Histogram := Histogram(0, 0.0, [0, 0, 0, 0, 0, 0, 0, 0, 0, 0])

  datatype Checkpoint = Checkpoint(final: bool, hash: Event, lastFetched: int, time: int)

  datatype Entry = Entry(sequence: nat, event: Event, size: nat)

  datatype Stats = Stats(
    revision: nat, completed: map<Phase, nat>, histograms: map<(Measure, Phase), Histogram>,
    pending: int, bytes: int, floor: int)

  datatype State = State(stats: Stats, checkpoints: map<string, Checkpoint>, events: seq<Entry>, lastSequence: nat)

  /** A fresh store, after its first `saveStats`. */
  const FRESH: State := State(Stats(1, map[], map[], 0, 0, 0), map[], [], 0)

  datatype Limits = Limits(maxEvents: nat, maxCheckpoints: nat, maxBytes: nat, retention: int, events: bool)
  {
    predicate Valid() {
      maxEvents <= MAX_INT64 && maxBytes <= MAX_INT64 && retention > 0
    }
  }

  datatype Outcome = Stored | Ignored | TooOld | Full | Corrupt | Invalid

  // ---------------------------------------------------------------- stored statistics

  function CountOf(completed: map<Phase, nat>, p: Phase): nat {
    if p in completed then completed[p] else 0
  }

  predicate Ascending(xs: seq<nat>, top: nat) {
    (forall i :: 0 <= i < |xs| ==> xs[i] <= top) && forall i, j :: 0 <= i < j < |xs| ==> xs[i] <= xs[j]
  }

  predicate HistogramOk(h: Histogram, completed: nat) {
    |h.buckets| == |BOUNDS| && h.sum >= 0.0 && (h.count == 0 ==> h.sum == 0.0) && h.count <= completed
        && Ascending(h.buckets, h.count)
  }

  /** `decodeStats`, at the level of decoded values. */
  predicate StatsOk(a: Stats) {
    && 0 < a.revision <= MAX_UINT64 && a.pending >= 0 && a.bytes >= 0
    && (forall p :: p in a.completed ==> Terminal(p) && a.completed[p] <= MAX_UINT64)
    && (forall k :: k in a.histograms ==> Terminal(k.1) && HistogramOk(a.histograms[k], CountOf(a.completed, k.1)))
  }

  // ---------------------------------------------------------------- transactions

  function Bump(h: Histogram, v: real): Histogram {
    Histogram(h.count + 1, h.sum + v,
              seq(|h.buckets|, i requires 0 <= i < |h.buckets| => h.buckets[i] + if i < |BOUNDS| && v <= BOUNDS[i]
                  then 1 else 0))
  }

  function Observe(hs: map<(Measure, Phase), Histogram>, m: Measure, e: Event): map<(Measure, Phase), Histogram> {
    if ValueOf(e, m).None? then hs
    else hs[(m, e.phase) := Bump(HistogramAt(hs, m, e.phase), ValueOf(e, m).value)]
  }

  function HistogramAt(hs: map<(Measure, Phase), Histogram>, m: Measure, p: Phase): Histogram {
    if (m, p) in hs then hs[(m, p)] else NO_VALUES
  }

  /** Counting one terminal query: its phase and the three durations it may report. */
  function Count(a: Stats, e: Event): Stats {
    a.(completed := a.completed[e.phase := CountOf(a.completed, e.phase) + 1],
       histograms := Observe(Observe(Observe(a.histograms, Elapsed, e), Execution, e), Queued, e))
  }

  /** Whether a checkpoint makes `Record` return without doing anything. */
  predicate Settled(cps: map<string, Checkpoint>, e: Event) {
    e.id in cps && (cps[e.id].final || e.observed < cps[e.id].lastFetched)
  }

  predicate Changed(cps: map<string, Checkpoint>, e: Event) {
    e.id !in cps || cps[e.id].hash != HashOf(e)
  }

  predicate QueueFull(a: Stats, lim: Limits, size: nat) {
    a.pending >= lim.maxEvents || size > lim.maxBytes - a.bytes
  }

  /** Queueing the event, when events are published and its content changed. */
  function Queue(s: State, lim: Limits, e: Event, size: nat): State {
    if !(lim.events && Changed(s.checkpoints, e)) then s
    else s.(stats := s.stats.(pending := s.stats.pending + 1, bytes := s.stats.bytes + size),
            events := s.events + [Entry(s.lastSequence + 1, e, size)], lastSequence := s.lastSequence + 1)
  }

  function Saved(s: State, a: Stats): State {
    s.(stats := a.(revision := a.revision + 1))
  }

  function CheckpointFor(e: Event): Checkpoint {
    Checkpoint(Terminal(e.phase), HashOf(e), e.observed, When(e))
  }

  /** The committed state of a `Record` that gets past every check. */
  function Committed(s: State, lim: Limits, e: Event, size: nat): State {
    var q := Queue(s, lim, e, size);
    var a := if Terminal(e.phase) then Count(q.stats, e) else q.stats;
    Saved(q.(checkpoints := q.checkpoints[e.id := CheckpointFor(e)]), a)
  }

  /** `Record`. Every outcome but `Stored` leaves the store as it was. */
  function Record(s: State, lim: Limits, source: string, e: Event, size: nat): (State, Outcome) {
    if !EventOk(e, source) || size > MAX_EVENT_BYTES then (s, Invalid)
    else if !StatsOk(s.stats) then (s, Corrupt)
    else if When(e) < s.stats.floor then (s, TooOld)
    else if Settled(s.checkpoints, e) then (s, Ignored)
    else if e.id !in s.checkpoints && |s.checkpoints| >= lim.maxCheckpoints then (s, Full)
    else if lim.events && Changed(s.checkpoints, e) && QueueFull(s.stats, lim, size) then (s, Full)
    else if Terminal(e.phase) && CountOf(s.stats.completed, e.phase) == MAX_UINT64 then (s, Corrupt)
    else if s.stats.revision == MAX_UINT64 then (s, Corrupt)
    else (Committed(s, lim, e, size), Stored)
  }

  function Floor(s: State, lim: Limits, now: int): int {
    if now - lim.retention < s.stats.floor then s.stats.floor else now - lim.retention
  }

  function NotBelow(cps: map<string, Checkpoint>, floor: int): map<string, Checkpoint> {
    map id | id in cps && cps[id].time >= floor :: cps[id]
  }

  /** `Prune`: the floor moves up only, and checkpoints below it go. */
  function Prune(s: State, lim: Limits, now: int): (State, Outcome) {
    if !StatsOk(s.stats) || s.stats.revision == MAX_UINT64 then (s, Corrupt)
    else (Saved(s.(checkpoints := NotBelow(s.checkpoints, Floor(s, lim, now))),
                s.stats.(floor := Floor(s, lim, now))), Stored)
  }

  function Position(es: seq<Entry>, sequence: nat): (i: nat)
    ensures i <= |es| && (i < |es| ==> es[i].sequence == sequence)
  {
    if es == [] then 0 else if es[0].sequence == sequence then 0 else 1 + Position(es[1..], sequence)
  }

  /** A queued terminal event not older than the floor still has the checkpoint that was written with it. */
  predicate Matches(cps: map<string, Checkpoint>, e: Event, floor: int) {
    Terminal(e.phase) && e.completed.Some? && e.completed.value >= floor ==>
      e.id in cps && cps[e.id] == Checkpoint(true, HashOf(e), e.observed, e.completed.value)
  }

  /** `validateRecord`. */
  predicate EntryOk(s: State, source: string, n: Entry) {
    && 0 < n.sequence <= s.lastSequence && n.size <= MAX_EVENT_BYTES
    && EventOk(n.event, source) && Matches(s.checkpoints, n.event, s.stats.floor)
  }

  /** `Ack`, in any order. */
  function Ack(s: State, source: string, sequence: nat): (State, Outcome) {
    var i := Position(s.events, sequence);
    if i == |s.events| then (s, Stored)
    else if !StatsOk(s.stats) || !EntryOk(s, source, s.events[i]) || s.stats.revision == MAX_UINT64 then (s, Corrupt)
    else if s.stats.pending < 1 || s.stats.bytes < s.events[i].size then (s, Corrupt)
    else
      (Saved(s.(events := s.events[..i] + s.events[i + 1..]),
             s.stats.(pending := s.stats.pending - 1, bytes := s.stats.bytes - s.events[i].size)), Stored)
  }
}
