/**
  What becomes of a valid event in a query store, told by the run: too old by the clocks of the prunes, settled by the
  last stored event of its query, refused exactly when it would exceed the limits, and stored otherwise.
 */
module QueryRoom {
  import opened Integers
  import opened QueryState
  import opened QueryRuns
  import opened QueryQueue

  /** The query is settled against this event: its last stored event is terminal, or was observed later. */
  predicate IsSettled(stored: seq<Event>, e: Event) {
    stored != [] &&
    var last := stored[|stored| - 1];
    Terminal(last.phase) || e.observed < last.observed
  }

  /** Nothing was stored for the query yet, or its last stored event differs in more than the observation time. */
  predicate IsChange(stored: seq<Event>, e: Event) {
    stored == [] || Content(stored[|stored| - 1]) != Content(e)
  }

  /** One more checkpoint, or one more event of this size, would exceed the limits. */
  predicate ExceedsLimits(s: State, lim: Limits, needsId: bool, needsEvent: bool, size: nat) {
    || (needsId && |s.checkpoints| + 1 > lim.maxCheckpoints)
    || (needsEvent && (|s.events| + 1 > lim.maxEvents || Sizes(s.events) + size > lim.maxBytes))
  }

  /** A counter that the event would move has reached the top of its 64 bits. */
  predicate CounterIsExhausted(s: State, counted: seq<Event>, e: Event) {
    s.stats.revision == MAX_UINT64 || (Terminal(e.phase) && CountPhase(counted, e.phase) == MAX_UINT64)
  }

  /** The outcome of `Record` in terms of what the run has stored, pruned and counted. */
  ghost predicate IsOutcome(source: string, tr: Trace, lim: Limits, e: Event, size: nat, outcome: Outcome) {
    var s, stored := Run(source, tr).s, StoredFor(source, tr, e.id);
    if IsPast(source, tr, TimeOf(e)) then outcome == TooOld
    else if IsSettled(stored, e) then outcome == Ignored
    else if ExceedsLimits(s, lim, stored == [], lim.events && IsChange(stored, e), size) then outcome == Full
    else if CounterIsExhausted(s, Run(source, tr).counted, e) then outcome == Corrupt
    else outcome == Stored
  }

  /** In every run a valid event meets exactly this outcome. */
  lemma {:induction false} RecordOutcomeIsTold(source: string, tr: Trace, lim: Limits, e: Event, size: nat)
    requires lim.Valid() && EventOk(e, source) && size <= MAX_EVENT_BYTES && TimeOf(e) >= 0
    ensures IsOutcome(source, tr, lim, e, size, Record(Run(source, tr).s, lim, source, e, size).1)
  {
    var l, stored := Run(source, tr), StoredFor(source, tr, e.id);
    ReachableStoreIsValid(source, tr);
    FloorIsTold(source, tr, TimeOf(e));
    CheckpointIsLastStored(source, tr, e.id);
    StoredBefore(source, tr, e.id);
    HistogramsAreExact(source, tr, Elapsed, e.phase);
    OutcomeOf(l.s, l.counted, lim, source, e, size, stored);
  }

  lemma OutcomeOf(s: State, counted: seq<Event>, lim: Limits, source: string, e: Event, size: nat, stored: seq<Event>)
    requires lim.Valid() && EventOk(e, source) && size <= MAX_EVENT_BYTES && StatsOk(s.stats)
    requires s.stats.pending == |s.events| && s.stats.bytes == Sizes(s.events)
    requires CountOf(s.stats.completed, e.phase) == CountPhase(counted, e.phase)
    requires if stored == [] then e.id !in s.checkpoints
             else e.id in s.checkpoints && s.checkpoints[e.id] == QueryQueue.CheckpointOf(stored[|stored| - 1])
    ensures
      var outcome := Record(s, lim, source, e, size).1;
      if TimeOf(e) < s.stats.floor then outcome == TooOld
      else if IsSettled(stored, e) then outcome == Ignored
      else if ExceedsLimits(s, lim, stored == [], lim.events && IsChange(stored, e), size) then outcome == Full
      else if CounterIsExhausted(s, counted, e) then outcome == Corrupt
      else outcome == Stored
  {
  }

  /** In every run the acknowledgement of a queued event succeeds, as long as the revision can still move. */
  lemma {:induction false} QueuedEventIsAcknowledged(source: string, tr: Trace, i: nat)
    requires i < |Run(source, tr).s.events| && Run(source, tr).s.stats.revision < MAX_UINT64
    ensures
      var s := Run(source, tr).s;
      var (s', outcome) := Ack(s, source, s.events[i].sequence);
      outcome == Stored && s'.events == s.events[..i] + s.events[i + 1..]
  {
    var s := Run(source, tr).s;
    ReachableStoreIsValid(source, tr);
    RunKeepsBooks(source, tr);
    SizesWithout(s.events, i);
    assert Position(s.events, s.events[i].sequence) == i by {
      PositionOfNumber(s.events, i);
    }
  }

  lemma {:induction false} PositionOfNumber(es: seq<Entry>, i: nat)
    requires i < |es| && forall j, k :: 0 <= j < k < |es| ==> es[j].sequence < es[k].sequence
    ensures Position(es, es[i].sequence) == i
  {
    if i > 0 {
      PositionOfNumber(es[1..], i - 1);
    }
  }
}
