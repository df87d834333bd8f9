/**
  Which events a query store queues and what it forgets, told by the run itself: per query, the events queued are the
  stored ones with consecutive equal contents collapsed; a checkpoint goes when some clock has passed its time.
 */
module QueryQueue {
  import opened Runs
  import opened Integers
  import opened Collapse
  import opened QueryState
  import opened QueryRuns

  // ---------------------------------------------------------------- what the run tells

  /** What two observations of a query have in common when nothing but the observation time differs. */
  function Content(e: Event): Event {
    e.(observed := 0)
  }

  function Contents(es: seq<Event>): seq<Event> {
    seq(|es|, i requires 0 <= i < |es| => Content(es[i]))
  }

  /** The time an event counts for: its completion, or its submission while it has none. */
  function TimeOf(e: Event): int {
    if e.completed.Some? then e.completed.value else e.submitted
  }

  /** The event whose `Record` the last action of the run stored for this query. */
  function NewlyStored(source: string, tr: Trace, id: string): seq<Event> {
    if tr.Then? && tr.action.Recording? && tr.action.lim.Valid() && tr.action.e.id == id
       && Record(Run(source, tr.before).s, tr.action.lim, source, tr.action.e, tr.action.size).1 == Stored
    then [tr.action.e] else []
  }

  /** The entry that the last action of the run added to the queue. */
  function NewlyQueued(source: string, tr: Trace): seq<Entry> {
    if tr.Start? then []
    else
      var es, es' := Run(source, tr.before).s.events, Run(source, tr).s.events;
      if |es'| > |es| then [es'[|es'| - 1]] else []
  }

  /** The events stored for a query since its checkpoint was created. */
  function StoredFor(source: string, tr: Trace, id: string): seq<Event> {
    if tr.Start? || id !in Run(source, tr).s.checkpoints then []
    else StoredFor(source, tr.before, id) + NewlyStored(source, tr, id)
  }

  function EventsOf(entries: seq<Entry>, id: string): seq<Event> {
    if entries == [] then []
    else
      var last := entries[|entries| - 1].event;
      EventsOf(entries[..|entries| - 1], id) + if last.id == id then [last] else []
  }

  /** The events queued for a query since its checkpoint was created, acknowledged since or not. */
  function QueuedFor(source: string, tr: Trace, id: string): seq<Event> {
    if tr.Start? || id !in Run(source, tr).s.checkpoints then []
    else QueuedFor(source, tr.before, id) + EventsOf(NewlyQueued(source, tr), id)
  }

  /** Every `Record` of the run is made with, or without, an event outbox. */
  predicate AllWith(tr: Trace, events: bool) {
    tr.Then? ==> AllWith(tr.before, events) && (tr.action.Recording? ==> tr.action.lim.events == events)
  }

  // ---------------------------------------------------------------- one transaction

  predicate IsNew(s: State, e: Event) {
    e.id !in s.checkpoints || s.checkpoints[e.id].hash != Content(e)
  }

  /** The checkpoint that an event leaves. */
  function CheckpointOf(e: Event): Checkpoint {
    Checkpoint(Terminal(e.phase), Content(e), e.observed, TimeOf(e))
  }

  lemma RecordEffect(s: State, lim: Limits, source: string, e: Event, size: nat)
    ensures
      var (s', outcome) := Record(s, lim, source, e, size);
      if outcome == Stored then
        && s'.checkpoints == s.checkpoints[e.id := CheckpointOf(e)]
        && s'.events == s.events + if lim.events && IsNew(s, e) then [Entry(s.lastSequence + 1, e, size)] else []
      else s' == s
  {
  }

  lemma AckEffect(s: State, source: string, sequence: nat)
    ensures
      var s' := Ack(s, source, sequence).0;
      s'.checkpoints == s.checkpoints && |s'.events| <= |s.events|
  {
  }

  /** The checkpoint of a query is that of the last event stored for it. */
  predicate LastIsStored(s: State, id: string, stored: seq<Event>) {
    id in s.checkpoints ==> stored != [] && s.checkpoints[id] == CheckpointOf(stored[|stored| - 1])
  }

  /** An action other than `Record` stores and queues nothing. */
  lemma OtherAddsNothing(source: string, tr: Trace, id: string)
    requires tr.Then? && !tr.action.Recording?
    ensures NewlyStored(source, tr, id) == [] && NewlyQueued(source, tr) == []
    ensures
      var s, s' := Run(source, tr.before).s, Run(source, tr).s;
      id in s'.checkpoints ==> id in s.checkpoints && s'.checkpoints[id] == s.checkpoints[id]
  {
    var s := Run(source, tr.before).s;
    if tr.action.Acking? {
      AckEffect(s, source, tr.action.sequence);
    }
  }

  lemma {:induction false} CheckpointIsLastStored(source: string, tr: Trace, id: string)
    ensures LastIsStored(Run(source, tr).s, id, StoredFor(source, tr, id))
  {
    if tr.Then? {
      CheckpointIsLastStored(source, tr.before, id);
      if tr.action.Recording? {
        var a := tr.action;
        RecordEffect(Run(source, tr.before).s, a.lim, source, a.e, a.size);
      } else {
        OtherAddsNothing(source, tr, id);
      }
    }
  }

  // ---------------------------------------------------------------- queued is stored, collapsed

  lemma ContentsNext(es: seq<Event>, e: Event)
    ensures Contents(es + [e]) == Contents(es) + [Content(e)]
  {
  }

  lemma OneEntry(n: Entry, id: string)
    ensures EventsOf([n], id) == if n.event.id == id then [n.event] else []
  {
    assert [n][..0] == [];
  }

  /** What a `Record` adds to the stored and to the queued events of a query. */
  lemma RecordAdds(source: string, tr: Trace, id: string)
    requires tr.Then? && tr.action.Recording? && tr.action.lim.events
    ensures
      var s, e := Run(source, tr.before).s, tr.action.e;
      EventsOf(NewlyQueued(source, tr), id) == if IsNew(s, e) then NewlyStored(source, tr, id) else []
  {
    var s, a := Run(source, tr.before).s, tr.action;
    RecordEffect(s, a.lim, source, a.e, a.size);
    OneEntry(Entry(s.lastSequence + 1, a.e, a.size), id);
  }

  lemma CollapsedStep(stored: seq<Event>, e: Event, queued: seq<Event>, added: bool)
    requires Contents(queued) == Collapsed(Contents(stored))
    requires added <==> stored == [] || Content(stored[|stored| - 1]) != Content(e)
    ensures Contents(queued + if added then [e] else []) == Collapsed(Contents(stored + [e]))
  {
    ContentsNext(stored, e);
    CollapsedAppend(Contents(stored), Content(e));
    if added {
      ContentsNext(queued, e);
    } else {
      assert queued + [] == queued;
    }
  }

  /**
    With an event outbox, the events ever queued for a query while its checkpoint lives are the stored ones with
    consecutive equal contents collapsed: every change is published, every repetition is not.
   */
  lemma {:induction false} QueuedIsStoredCollapsed(source: string, tr: Trace, id: string)
    requires AllWith(tr, true)
    ensures Contents(QueuedFor(source, tr, id)) == Collapsed(Contents(StoredFor(source, tr, id)))
  {
    if tr.Then? && id in Run(source, tr).s.checkpoints {
      var stored, queued := StoredFor(source, tr.before, id), QueuedFor(source, tr.before, id);
      QueuedIsStoredCollapsed(source, tr.before, id);
      if tr.action.Recording? {
        RecordingStaysCollapsed(source, tr, id, stored, queued);
      } else {
        OtherAddsNothing(source, tr, id);
        assert queued + [] == queued && stored + [] == stored;
      }
    }
  }

  lemma RecordingStaysCollapsed(source: string, tr: Trace, id: string, stored: seq<Event>, queued: seq<Event>)
    requires tr.Then? && tr.action.Recording? && tr.action.lim.events && stored == StoredFor(source, tr.before, id)
    requires Contents(queued) == Collapsed(Contents(stored))
    ensures Contents(queued + EventsOf(NewlyQueued(source, tr), id)) ==
            Collapsed(Contents(stored + NewlyStored(source, tr, id)))
  {
    var newly := NewlyStored(source, tr, id);
    RecordAdds(source, tr, id);
    NewContentIsTold(source, tr, id);
    CollapsedUnlessRepeated(stored, tr.action.e, queued, newly, IsNew(Run(source, tr.before).s, tr.action.e));
  }

  lemma CollapsedUnlessRepeated(stored: seq<Event>, e: Event, queued: seq<Event>, newly: seq<Event>, added: bool)
    requires newly == [] || newly == [e]
    requires newly != [] ==> (added <==> stored == [] || Content(stored[|stored| - 1]) != Content(e))
    requires Contents(queued) == Collapsed(Contents(stored))
    ensures Contents(queued + if added then newly else []) == Collapsed(Contents(stored + newly))
  {
    if newly == [] {
      assert queued + [] == queued && stored + [] == stored;
    } else {
      CollapsedStep(stored, e, queued, added);
    }
  }

  /** The stored events of an unknown query are none, those of a known one end with its checkpoint's. */
  lemma StoredBefore(source: string, tr: Trace, id: string)
    ensures
      var s, stored := Run(source, tr).s, StoredFor(source, tr, id);
      if id in s.checkpoints then stored != [] && s.checkpoints[id].hash == Content(stored[|stored| - 1])
      else stored == []
  {
    CheckpointIsLastStored(source, tr, id);
  }

  /** What a `Record` stores for a query is the event, and it is new exactly when the last one stored differs. */
  lemma NewContentIsTold(source: string, tr: Trace, id: string)
    requires tr.Then? && tr.action.Recording?
    ensures
      var stored, newly := StoredFor(source, tr.before, id), NewlyStored(source, tr, id);
      var e := tr.action.e;
      newly == []
      || (newly == [e]
          && (IsNew(Run(source, tr.before).s, e) <==> stored == [] || Content(stored[|stored| - 1]) != Content(e)))
  {
    StoredBefore(source, tr.before, id);
  }

  /** Without an event outbox nothing is ever queued. */
  lemma {:induction false} NothingQueuedWithoutEvents(source: string, tr: Trace)
    requires AllWith(tr, false)
    ensures Run(source, tr).s.events == []
  {
    if tr.Then? {
      var s, a := Run(source, tr.before).s, tr.action;
      NothingQueuedWithoutEvents(source, tr.before);
      match a
      case Recording(lim, e, size) => RecordEffect(s, lim, source, e, size);
      case Acking(sequence) => AckEffect(s, source, sequence);
      case Pruning(_, _) =>
      case Reopening(_, _) =>
    }
  }

  // ---------------------------------------------------------------- the queue

  /** Every entry ever queued, oldest first. */
  function EverQueued(source: string, tr: Trace): seq<Entry> {
    if tr.Start? then [] else EverQueued(source, tr.before) + NewlyQueued(source, tr)
  }

  /** The sequences whose acknowledgement took an entry out of the queue. */
  function Acknowledged(source: string, tr: Trace): set<nat> {
    if tr.Start? then {}
    else Acknowledged(source, tr.before) + if TakesOut(source, tr) then {tr.action.sequence} else {}
  }

  predicate TakesOut(source: string, tr: Trace)
    requires tr.Then?
  {
    tr.action.Acking? && |Run(source, tr).s.events| < |Run(source, tr.before).s.events|
  }

  function Unacknowledged(entries: seq<Entry>, acked: set<nat>): seq<Entry> {
    if entries == [] then []
    else
      var last := entries[|entries| - 1];
      Unacknowledged(entries[..|entries| - 1], acked) + if last.sequence in acked then [] else [last]
  }

  predicate Rising(entries: seq<Entry>, top: nat) {
    && (forall i :: 0 <= i < |entries| ==> 0 < entries[i].sequence <= top)
    && forall i, j :: 0 <= i < j < |entries| ==> entries[i].sequence < entries[j].sequence
  }

  lemma {:induction false} UnacknowledgedHas(entries: seq<Entry>, acked: set<nat>, n: Entry)
    ensures n in Unacknowledged(entries, acked) <==> n in entries && n.sequence !in acked
  {
    if entries != [] {
      var front, last := entries[..|entries| - 1], entries[|entries| - 1];
      assert entries == front + [last];
      UnacknowledgedHas(front, acked, n);
    }
  }

  lemma {:induction false} UnacknowledgedSame(entries: seq<Entry>, acked: set<nat>, more: set<nat>)
    requires forall i :: 0 <= i < |entries| ==> (entries[i].sequence in acked <==> entries[i].sequence in more)
    ensures Unacknowledged(entries, acked) == Unacknowledged(entries, more)
  {
    if entries != [] {
      UnacknowledgedSame(entries[..|entries| - 1], acked, more);
    }
  }

  /** Acknowledging one more sequence takes exactly its entry out. */
  lemma {:induction false} UnacknowledgedWithout(entries: seq<Entry>, acked: set<nat>, top: nat, i: nat)
    requires Rising(entries, top) && i < |Unacknowledged(entries, acked)|
    ensures
      var left := Unacknowledged(entries, acked);
      Unacknowledged(entries, acked + {left[i].sequence}) == left[..i] + left[i + 1..]
  {
    var front, last := entries[..|entries| - 1], entries[|entries| - 1];
    var before, left := Unacknowledged(front, acked), Unacknowledged(entries, acked);
    if i < |before| {
      UnacknowledgedWithout(front, acked, top, i);
      UnacknowledgedHas(front, acked, left[i]);
      assert left[i] == before[i] && left[i].sequence != last.sequence;
      if last.sequence in acked {
        assert left == before + [] == before;
      } else {
        assert left == before + [last];
        assert left[..i] + left[i + 1..] == before[..i] + before[i + 1..] + [last];
      }
    } else {
      assert left == before + [last] && i == |before|;
      UnacknowledgedSame(front, acked, acked + {last.sequence});
      assert left[..i] + left[i + 1..] == before;
    }
  }

  /** Sequences rise with the queueing, and none beyond the last one is acknowledged. */
  ghost predicate Numbered(source: string, tr: Trace) {
    var last := Run(source, tr).s.lastSequence;
    Rising(EverQueued(source, tr), last) && forall q :: q in Acknowledged(source, tr) ==> q <= last
  }

  lemma {:induction false} EverQueuedIsRising(source: string, tr: Trace)
    ensures Numbered(source, tr)
  {
    if tr.Then? {
      EverQueuedIsRising(source, tr.before);
      if tr.action.Recording? {
        RecordKeepsNumbered(source, tr);
      } else {
        OtherKeepsNumbered(source, tr);
      }
    }
  }

  lemma RecordKeepsNumbered(source: string, tr: Trace)
    requires tr.Then? && tr.action.Recording? && Numbered(source, tr.before)
    ensures Numbered(source, tr)
  {
    RecordNumbers(source, tr);
    Extended(source, tr, NewlyQueued(source, tr), {});
  }

  lemma OtherKeepsNumbered(source: string, tr: Trace)
    requires tr.Then? && !tr.action.Recording? && Numbered(source, tr.before)
    ensures Numbered(source, tr)
  {
    OtherAddsNothing(source, tr, "");
    OtherNumbersNothing(source, tr);
    AcknowledgedIsQueued(source, tr);
    Extended(source, tr, [], if TakesOut(source, tr) then {tr.action.sequence} else {});
  }

  lemma RecordNumbers(source: string, tr: Trace)
    requires tr.Then? && tr.action.Recording?
    ensures
      var last, last' := Run(source, tr.before).s.lastSequence, Run(source, tr).s.lastSequence;
      || (NewlyQueued(source, tr) == [] && last' == last)
      || (|NewlyQueued(source, tr)| == 1 && NewlyQueued(source, tr)[0].sequence == last + 1 == last')
    ensures Run(source, tr).s.events == Run(source, tr.before).s.events + NewlyQueued(source, tr)
  {
    var s, a := Run(source, tr.before).s, tr.action;
    RecordEffect(s, a.lim, source, a.e, a.size);
  }

  /** Only numbers in the queue are acknowledged. */
  lemma AcknowledgedIsQueued(source: string, tr: Trace)
    requires tr.Then? && !tr.action.Recording?
    ensures TakesOut(source, tr) ==> tr.action.sequence <= Run(source, tr.before).s.lastSequence
  {
    if TakesOut(source, tr) {
      var i := AckRemoves(Run(source, tr.before).s, source, tr.action.sequence);
      RunKeepsBooks(source, tr.before);
    }
  }

  lemma OtherNumbersNothing(source: string, tr: Trace)
    requires tr.Then? && !tr.action.Recording?
    ensures Run(source, tr).s.lastSequence == Run(source, tr.before).s.lastSequence
  {
  }

  ghost predicate QueueTold(source: string, tr: Trace) {
    Run(source, tr).s.events == Unacknowledged(EverQueued(source, tr), Acknowledged(source, tr))
  }

  /** The queue is what was ever queued without what was acknowledged, in the order of queueing. */
  lemma {:induction false} QueueIsUnacknowledged(source: string, tr: Trace)
    ensures QueueTold(source, tr)
  {
    if tr.Then? {
      QueueIsUnacknowledged(source, tr.before);
      if tr.action.Recording? {
        RecordPutsIn(source, tr);
      } else if tr.action.Acking? {
        AckTakesOut(source, tr);
      } else {
        OtherKeepsQueue(source, tr);
      }
    }
  }

  /** The two histories that a step extends, by at most one entry and at most one sequence. */
  lemma Extended(source: string, tr: Trace, more: seq<Entry>, gone: set<nat>)
    requires tr.Then? && more == NewlyQueued(source, tr)
    requires gone == if TakesOut(source, tr) then {tr.action.sequence} else {}
    ensures EverQueued(source, tr) == EverQueued(source, tr.before) + more
    ensures Acknowledged(source, tr) == Acknowledged(source, tr.before) + gone
  {
  }

  lemma OtherKeepsQueue(source: string, tr: Trace)
    requires tr.Then? && !tr.action.Recording? && !tr.action.Acking? && QueueTold(source, tr.before)
    ensures QueueTold(source, tr)
  {
    var ever, acked := EverQueued(source, tr.before), Acknowledged(source, tr.before);
    PruneKeepsEvents(source, tr);
    Extended(source, tr, [], {});
    assert ever + [] == ever && acked + {} == acked;
  }

  lemma PruneKeepsEvents(source: string, tr: Trace)
    requires tr.Then? && !tr.action.Recording? && !tr.action.Acking?
    ensures Run(source, tr).s.events == Run(source, tr.before).s.events && NewlyQueued(source, tr) == []
    ensures !TakesOut(source, tr)
  {
  }

  lemma RecordPutsIn(source: string, tr: Trace)
    requires tr.Then? && tr.action.Recording? && QueueTold(source, tr.before)
    ensures QueueTold(source, tr)
  {
    var ever, acked, more := EverQueued(source, tr.before), Acknowledged(source, tr.before), NewlyQueued(source, tr);
    EverQueuedIsRising(source, tr.before);
    RecordNumbers(source, tr);
    Extended(source, tr, more, {});
    PutsIn(ever, acked, more, Run(source, tr.before).s.lastSequence);
  }

  lemma PutsIn(ever: seq<Entry>, acked: set<nat>, more: seq<Entry>, last: nat)
    requires forall q :: q in acked ==> q <= last
    requires more == [] || (|more| == 1 && more[0].sequence == last + 1)
    ensures Unacknowledged(ever + more, acked + {}) == Unacknowledged(ever, acked) + more
  {
    assert acked + {} == acked;
    if more == [] {
      assert ever + [] == ever;
    } else {
      assert more == [more[0]];
      QueuedNext(ever, acked, more[0]);
    }
  }

  lemma QueuedNext(ever: seq<Entry>, acked: set<nat>, n: Entry)
    requires n.sequence !in acked
    ensures Unacknowledged(ever + [n], acked) == Unacknowledged(ever, acked) + [n]
  {
    assert (ever + [n])[..|ever|] == ever;
  }

  lemma AckRemoves(s: State, source: string, sequence: nat) returns (i: nat)
    ensures
      var s' := Ack(s, source, sequence).0;
      s'.events == s.events
      || (i < |s.events| && s.events[i].sequence == sequence && s'.events == s.events[..i] + s.events[i + 1..])
  {
    i := Position(s.events, sequence);
  }

  /** Taking one event out of the queue is acknowledging its sequence. */
  lemma TakesOne(ever: seq<Entry>, acked: set<nat>, last: nat, i: nat)
    requires Rising(ever, last) && i < |Unacknowledged(ever, acked)|
    ensures
      var left := Unacknowledged(ever, acked);
      Unacknowledged(ever + [], acked + {left[i].sequence}) == left[..i] + left[i + 1..]
  {
    assert ever + [] == ever;
    UnacknowledgedWithout(ever, acked, last, i);
  }

  lemma TakesNone(ever: seq<Entry>, acked: set<nat>)
    ensures Unacknowledged(ever + [], acked + {}) == Unacknowledged(ever, acked)
  {
    assert ever + [] == ever && acked + {} == acked;
  }

  lemma AckTakesOut(source: string, tr: Trace)
    requires tr.Then? && tr.action.Acking? && QueueTold(source, tr.before)
    ensures QueueTold(source, tr)
  {
    var ever, acked := EverQueued(source, tr.before), Acknowledged(source, tr.before);
    var i, gone := AckedEvent(source, tr);
    Extended(source, tr, [], gone);
    if gone == {} {
      TakesNone(ever, acked);
    } else {
      EverQueuedIsRising(source, tr.before);
      TakesOne(ever, acked, Run(source, tr.before).s.lastSequence, i);
    }
  }

  /** The sequences an acknowledgement of the run takes out, and where the event stood. */
  lemma AckedEvent(source: string, tr: Trace) returns (i: nat, gone: set<nat>)
    requires tr.Then? && tr.action.Acking?
    ensures NewlyQueued(source, tr) == []
    ensures gone == if TakesOut(source, tr) then {tr.action.sequence} else {}
    ensures
      var events, events' := Run(source, tr.before).s.events, Run(source, tr).s.events;
      if gone == {} then events' == events
      else i < |events| && gone == {events[i].sequence} && events' == events[..i] + events[i + 1..]
  {
    i := AckRemoves(Run(source, tr.before).s, source, tr.action.sequence);
    gone := if TakesOut(source, tr) then {tr.action.sequence} else {};
  }

  // ---------------------------------------------------------------- the floor

  /** The action prunes: a `Prune`, or the one a reopened store begins with, while the revision can still move. */
  predicate Prunes(s: State, a: Action) {
    (a.Pruning? || a.Reopening?) && a.lim.Valid() && s.stats.revision < MAX_UINT64
  }

  /** Some prune of the run happened more than its retention after `t`. */
  predicate IsPast(source: string, tr: Trace, t: int) {
    tr.Then? &&
    (IsPast(source, tr.before, t)
     || (Prunes(Run(source, tr.before).s, tr.action) && tr.action.now - tr.action.lim.retention > t))
  }

  lemma PruneEffect(source: string, tr: Trace)
    requires tr.Then?
    ensures
      var s, s', a := Run(source, tr.before).s, Run(source, tr).s, tr.action;
      if Prunes(s, a) then
        s'.stats.floor == (if a.now - a.lim.retention < s.stats.floor then s.stats.floor else a.now - a.lim.retention)
      else s'.stats.floor == s.stats.floor
  {
    var s, a := Run(source, tr.before).s, tr.action;
    ReachableStoreIsValid(source, tr.before);
    if a.Recording? {
      RecordKeepsFloor(s, a.lim, source, a.e, a.size);
    }
  }

  /** In every run a time is below the floor exactly when some prune is more than its retention after it. */
  lemma {:induction false} FloorIsTold(source: string, tr: Trace, t: int)
    requires t >= 0
    ensures t < Run(source, tr).s.stats.floor <==> IsPast(source, tr, t)
  {
    if tr.Then? {
      FloorIsTold(source, tr.before, t);
      PruneEffect(source, tr);
    }
  }

  lemma PruneForgets(source: string, tr: Trace, id: string)
    requires tr.Then? && id in Run(source, tr.before).s.checkpoints
    ensures
      var s, s', a := Run(source, tr.before).s, Run(source, tr).s, tr.action;
      id !in s'.checkpoints <==> Prunes(s, a) && s.checkpoints[id].time < s'.stats.floor
  {
    var s, a := Run(source, tr.before).s, tr.action;
    ReachableStoreIsValid(source, tr.before);
    match a
    case Recording(lim, e, size) => RecordEffect(s, lim, source, e, size);
    case Acking(sequence) => AckEffect(s, source, sequence);
    case Pruning(_, _) =>
    case Reopening(_, _) =>
  }

  /**
    Exactly when a query is forgotten: by a prune, if and only if some prune up to and including it is more than its
    retention after the completion of the query's last stored event, or its submission if that has none.
   */
  lemma {:induction false} ForgottenExactlyWhenPast(source: string, tr: Trace, a: Action, id: string)
    requires id in Run(source, tr).s.checkpoints
    ensures StoredFor(source, tr, id) != []
    ensures
      var stored := StoredFor(source, tr, id);
      var t := TimeOf(stored[|stored| - 1]);
      t >= 0 ==>
        (id !in Run(source, Then(tr, a)).s.checkpoints <==>
           Prunes(Run(source, tr).s, a) && IsPast(source, Then(tr, a), t))
  {
    var stored := StoredFor(source, tr, id);
    CheckpointIsLastStored(source, tr, id);
    PruneForgets(source, Then(tr, a), id);
    if TimeOf(stored[|stored| - 1]) >= 0 {
      FloorIsTold(source, Then(tr, a), TimeOf(stored[|stored| - 1]));
    }
  }
}
