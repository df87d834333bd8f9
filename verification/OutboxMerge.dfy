/**
  Live and backfill details in the log store: of all the content ever queued for an id since its checkpoint was
  created, acknowledged or not, none is older than what was queued before it, as long as its markers parse.
 */
module OutboxMerge {
  import opened Options
  import opened Runs
  import opened Outbox
  import opened OutboxRuns
  import opened OutboxDelivery

  // ---------------------------------------------------------------- the checkpoint's marker

  /** Every marker submitted for the id since its checkpoint was created parses. */
  ghost predicate MarksParse(l: Line, id: string) {
    forall m :: m in At(l.marks, id) ==> m.at.Some?
  }

  function Time(m: Marker): int {
    if m.at.Some? then m.at.value else 0
  }

  /** The checkpoint marker is the latest of all markers submitted in its lifetime. */
  ghost predicate MarkerIsLatest(cp: Checkpoint, marks: seq<Marker>) {
    && cp.marker in marks && cp.marker.at.Some?
    && forall m :: m in marks ==> m.at.Some? && m.at.value <= cp.marker.at.value
  }

  ghost predicate LatestInv(l: Line) {
    forall id :: id in l.s.checkpoints && MarksParse(l, id) ==> MarkerIsLatest(l.s.checkpoints[id], At(l.marks, id))
  }

  /** While its markers parse, the marker of an id never moves back. */
  ghost predicate Advances(l: Line, l': Line, id: string) {
    id in l.s.checkpoints && id in l'.s.checkpoints && MarksParse(l', id) ==>
      MarksParse(l, id) && Time(l.s.checkpoints[id].marker) <= Time(l'.s.checkpoints[id].marker)
  }

  function KeptMarker(s: State, id: string, marker: Marker): Marker {
    var previous := CheckpointOf(s, id).marker;
    if Older(marker, previous) then previous else marker
  }

  ghost predicate MarkerPut(s: State, s': State, id: string, marker: Marker) {
    id in s'.checkpoints && s'.checkpoints == s.checkpoints[id := s'.checkpoints[id]]
        && s'.checkpoints[id].marker == marker
  }

  /** A marker was submitted for `id`: the checkpoint keeps the later one, every other id is untouched. */
  ghost predicate Submitted(l: Line, l': Line, id: string, marker: Marker) {
    && l'.marks == Grown(l.marks, id, [marker])
    && MarkerPut(l.s, l'.s, id, KeptMarker(l.s, id, marker))
  }

  /** Whatever the log store does with a detail that fits, the checkpoint keeps the later of the two markers. */
  lemma EnqueuePutsMarker(s: State, lim: Limits, ev: Event, marker: Marker, at: int, size: nat)
    requires lim.logs && Enqueue(s, lim, ev, marker, at, size).1 != Full
    ensures MarkerPut(s, Enqueue(s, lim, ev, marker, at, size).0, ev.id, KeptMarker(s, ev.id, marker))
  {
    if Older(marker, CheckpointOf(s, ev.id).marker) {
      assert ev.id in s.checkpoints;
      assert s.checkpoints == s.checkpoints[ev.id := s.checkpoints[ev.id]];
    }
  }

  lemma EnqueueSubmits(l: Line, lim: Limits, a: Action)
    requires a.Enqueueing? && lim.logs && Enqueue(l.s, lim, a.ev, a.marker, a.at, a.size).1 != Full
    ensures Submitted(l, AfterEnqueue(l, lim, a), a.ev.id, a.marker)
  {
    EnqueuePutsMarker(l.s, lim, a.ev, a.marker, a.at, a.size);
    EnqueueReachesStore(l, lim, a);
  }

  lemma SeeingSubmits(lim: Limits, l: Line, a: Action)
    requires lim.logs && a.Seeing? && Enabled(lim, l, a) && MarkSeen(l.s, lim, a.id, a.marker, a.at).1 != Full
    ensures Submitted(l, Step(lim, l, a), a.id, a.marker)
  {
  }

  lemma GrownMarksParse(l: Line, l': Line, id: string, marker: Marker)
    requires At(l'.marks, id) == At(l.marks, id) + [marker]
    ensures MarksParse(l', id) <==> MarksParse(l, id) && marker.at.Some?
  {
    assert forall m :: m in At(l'.marks, id) <==> m in At(l.marks, id) || m == marker;
  }

  /** The id whose marker was submitted. */
  lemma SubmittedIsLatest(l: Line, l': Line, id: string, marker: Marker)
    requires LatestInv(l) && Submitted(l, l', id, marker) && (id !in l.s.checkpoints ==> id !in l.marks)
    ensures MarksParse(l', id) ==> MarkerIsLatest(l'.s.checkpoints[id], At(l'.marks, id))
    ensures Advances(l, l', id)
  {
    GrownMarksParse(l, l', id, marker);
    if MarksParse(l', id) {
      assert id in l.s.checkpoints ==> MarkerIsLatest(l.s.checkpoints[id], At(l.marks, id));
      assert forall m :: m in At(l'.marks, id) <==> m in At(l.marks, id) || m == marker;
    }
  }

  lemma SubmittedKeepsLatest(l: Line, l': Line, id: string, marker: Marker)
    requires LatestInv(l) && Submitted(l, l', id, marker) && (id !in l.s.checkpoints ==> id !in l.marks)
    ensures LatestInv(l') && forall other :: Advances(l, l', other)
  {
    SubmittedIsLatest(l, l', id, marker);
    forall other | other != id
      ensures At(l'.marks, other) == At(l.marks, other) && Advances(l, l', other)
    {
    }
  }

  /** Every other action leaves the markers of the ids it keeps as they are. */
  ghost predicate MarkersUntouched(l: Line, l': Line) {
    forall id :: id in l'.s.checkpoints ==>
      id in l.s.checkpoints && l'.s.checkpoints[id].marker == l.s.checkpoints[id].marker
          && At(l'.marks, id) == At(l.marks, id)
  }

  lemma OtherLeavesMarkers(lim: Limits, l: Line, a: Action)
    requires Enabled(lim, l, a) && !a.Enqueueing? && !a.Seeing? && (l.s.queue != [] ==> HeadRemoved(lim, l.s))
    ensures MarkersUntouched(l, Step(lim, l, a))
  {
  }

  lemma UntouchedKeepsLatest(l: Line, l': Line)
    requires LatestInv(l) && MarkersUntouched(l, l')
    ensures LatestInv(l') && forall id :: Advances(l, l', id)
  {
  }

  lemma StepKeepsLatest(lim: Limits, l: Line, a: Action)
    requires LatestInv(l) && (l.s.queue != [] ==> HeadRemoved(lim, l.s)) && lim.logs
    requires forall id :: id !in l.s.checkpoints ==> id !in l.marks
    ensures LatestInv(Step(lim, l, a)) && forall id :: Advances(l, Step(lim, l, a), id)
  {
    var l' := Step(lim, l, a);
    if l' != l {
      if a.Enqueueing? {
        EnqueueSubmits(l, lim, a);
        SubmittedKeepsLatest(l, l', a.ev.id, a.marker);
      } else if a.Seeing? {
        SeeingSubmits(lim, l, a);
        SubmittedKeepsLatest(l, l', a.id, a.marker);
      } else {
        OtherLeavesMarkers(lim, l, a);
        UntouchedKeepsLatest(l, l');
      }
    }
  }

  lemma {:induction false} RunKeepsLatest(lim: Limits, tr: Trace)
    requires lim.logs
    ensures LatestInv(Run(lim, tr))
    ensures tr.Then? ==> forall id :: Advances(Run(lim, tr.before), Run(lim, tr), id)
  {
    if tr.Then? {
      RunKeepsLatest(lim, tr.before);
      RunDelivers(lim, tr.before);
      if Run(lim, tr.before).s.queue != [] {
        HeadAcksCleanly(lim, tr.before);
      }
      StepKeepsLatest(lim, Run(lim, tr.before), tr.action);
    }
  }

  // ---------------------------------------------------------------- everything queued for an id

  /** The action queues a record of the id. */
  predicate Queues(lim: Limits, l: Line, a: Action, id: string) {
    a.Enqueueing? && Enabled(lim, l, a) && a.ev.id == id
        && Enqueue(l.s, lim, a.ev, a.marker, a.at, a.size).1 == Inserted
  }

  /** Content of an id with the marker time it was queued under. */
  datatype Content = Content(hash: Hash, time: int)

  /** Everything queued for the id since its checkpoint was created, oldest first, whether acknowledged since or not. */
  function EverQueued(lim: Limits, tr: Trace, id: string): seq<Content> {
    if tr.Start? || id !in Run(lim, tr).s.checkpoints then []
    else
      EverQueued(lim, tr.before, id)
      + if Queues(lim, Run(lim, tr.before), tr.action, id) then [Content(tr.action.ev.hash, Time(tr.action.marker))]
          else []
  }

  lemma EverQueuedNext(lim: Limits, tr: Trace, a: Action, l: Line, id: string)
    requires l == Run(lim, tr) && id in Step(lim, l, a).s.checkpoints
    ensures Run(lim, Then(tr, a)) == Step(lim, l, a)
    ensures EverQueued(lim, Then(tr, a), id) ==
            EverQueued(lim, tr, id) + if Queues(lim, l, a, id) then [Content(a.ev.hash, Time(a.marker))] else []
  {
  }

  function HashesIn(cs: seq<Content>): seq<Hash> {
    seq(|cs|, i requires 0 <= i < |cs| => cs[i].hash)
  }

  /** No content is older than what was queued before it, nor newer than `top`. */
  predicate InTimeOrder(cs: seq<Content>, top: int) {
    (forall i :: 0 <= i < |cs| ==> cs[i].time <= top) && forall i, j :: 0 <= i < j < |cs| ==> cs[i].time <= cs[j].time
  }

  lemma QueuedUnderItsMarker(lim: Limits, l: Line, a: Action, id: string)
    requires Queues(lim, l, a, id)
    ensures id in Step(lim, l, a).s.checkpoints && Step(lim, l, a).s.checkpoints[id].marker == a.marker
  {
  }

  lemma {:induction false} QueuedInTimeOrder(lim: Limits, tr: Trace, id: string)
    requires lim.logs && id in Run(lim, tr).s.checkpoints && MarksParse(Run(lim, tr), id)
    ensures InTimeOrder(EverQueued(lim, tr, id), Time(Run(lim, tr).s.checkpoints[id].marker))
  {
    var l := Run(lim, tr.before);
    RunKeepsLatest(lim, tr);
    assert Advances(l, Run(lim, tr), id);
    if id in l.s.checkpoints {
      QueuedInTimeOrder(lim, tr.before, id);
    }
    if Queues(lim, l, tr.action, id) {
      QueuedUnderItsMarker(lim, l, tr.action, id);
    }
  }

  // ---------------------------------------------------------------- which is what was acknowledged and what is queued

  function Sent(l: Line, id: string): seq<Hash> {
    At(l.shipped, id) + Hashes(l.s.queue, id)
  }

  lemma EnqueueQueues(lim: Limits, l: Line, a: Action)
    requires a.Enqueueing?
    ensures
      var l', inserted := AfterEnqueue(l, lim, a), Enqueue(l.s, lim, a.ev, a.marker, a.at, a.size).1 == Inserted;
      && (forall id :: At(l'.shipped, id) == At(l.shipped, id))
      && l'.s.queue == if inserted then l.s.queue + [NextRecord(l.s, a.ev, a.at, a.size)] else l.s.queue
  {
  }

  lemma EnqueueSends(lim: Limits, l: Line, a: Action, id: string)
    requires a.Enqueueing? && Enabled(lim, l, a)
    ensures Sent(AfterEnqueue(l, lim, a), id) == Sent(l, id) + if Queues(lim, l, a, id) then [a.ev.hash] else []
  {
    var l' := AfterEnqueue(l, lim, a);
    var r := NextRecord(l.s, a.ev, a.at, a.size);
    EnqueueQueues(lim, l, a);
    if Enqueue(l.s, lim, a.ev, a.marker, a.at, a.size).1 == Inserted {
      HashesAppend(l.s.queue, r, id);
    }
  }

  lemma AckSends(lim: Limits, l: Line, id: string)
    requires l.s.queue != [] && HeadRemoved(lim, l.s)
    ensures Sent(AfterAck(lim, l), id) == Sent(l, id)
  {
    HashesOfRest(l.s.queue, id);
  }

  lemma StepSends(lim: Limits, l: Line, a: Action, id: string)
    requires (l.s.queue != [] ==> HeadRemoved(lim, l.s)) && id in Step(lim, l, a).s.checkpoints
    ensures Sent(Step(lim, l, a), id) == Sent(l, id) + if Queues(lim, l, a, id) then [a.ev.hash] else []
  {
    if Enabled(lim, l, a) {
      match a
      case Enqueueing(_, _, _, _) => EnqueueSends(lim, l, a, id);
      case Seeing(_, _, _) => assert At(Step(lim, l, a).shipped, id) == At(l.shipped, id);
      case Reconciling(_, _, _) =>
      case Publishing(_) =>
      case Acking => AckSends(lim, l, id);
      case Reopening =>
    }
  }

  lemma NothingSentYet(lim: Limits, tr: Trace, id: string)
    requires id !in Run(lim, tr).s.checkpoints
    ensures Sent(Run(lim, tr), id) == []
  {
    RunKeepsStore(lim, tr);
    RunDelivers(lim, tr);
    GoodForEach(lim, Run(lim, tr), id);
  }

  lemma HashesInNext(cs: seq<Content>, c: Content)
    ensures HashesIn(cs + [c]) == HashesIn(cs) + [c.hash]
  {
  }

  lemma {:induction false} EverQueuedIsSent(lim: Limits, tr: Trace, id: string)
    requires id in Run(lim, tr).s.checkpoints
    ensures HashesIn(EverQueued(lim, tr, id)) == Sent(Run(lim, tr), id)
  {
    var l, a, before := Run(lim, tr.before), tr.action, EverQueued(lim, tr.before, id);
    assert HashesIn(before) == Sent(l, id) by {
      if id in l.s.checkpoints {
        EverQueuedIsSent(lim, tr.before, id);
      } else {
        NothingSentYet(lim, tr.before, id);
      }
    }
    assert l.s.queue != [] ==> HeadRemoved(lim, l.s) by {
      if l.s.queue != [] {
        HeadAcksCleanly(lim, tr.before);
      }
    }
    StepSends(lim, l, a, id);
    EverQueuedNext(lim, tr.before, a, l, id);
    if Queues(lim, l, a, id) {
      HashesInNext(before, Content(a.ev.hash, Time(a.marker)));
    }
  }

  /**
    While every marker submitted for an id since its checkpoint was created parses, the checkpoint's marker is the
    latest of them, and the content ever acknowledged or queued for the id is in marker order and no newer than that
    marker, so a late older detail never displaces newer content, delivered or not.
   */
  lemma {:induction false} NewerContentWins(lim: Limits, tr: Trace, id: string)
    requires lim.logs && id in Run(lim, tr).s.checkpoints && MarksParse(Run(lim, tr), id)
    ensures
      var l, ever := Run(lim, tr), EverQueued(lim, tr, id);
      && MarkerIsLatest(l.s.checkpoints[id], At(l.marks, id))
      && HashesIn(ever) == At(l.shipped, id) + Hashes(l.s.queue, id)
      && InTimeOrder(ever, Time(l.s.checkpoints[id].marker))
  {
    RunKeepsLatest(lim, tr);
    EverQueuedIsSent(lim, tr, id);
    QueuedInTimeOrder(lim, tr, id);
  }

  // ---------------------------------------------------------------- a marker that does not parse

  /** A new detail of a known id that finds room and differs from the content at hand. */
  predicate Fits(lim: Limits, s: State, ev: Event, at: int, size: nat) {
    && ValidEvent(lim, ev) && at > 0 && ev.id in s.checkpoints && !SameContent(s.checkpoints[ev.id], ev.hash)
    && s.count < lim.maxEvents && s.bytes + size <= lim.maxBytes
  }

  /** Some detail older than `newest` would be queued. */
  ghost predicate LetsOlderIn(lim: Limits, l: Line, ev: Event, at: int, size: nat, newest: int) {
    exists m: Marker :: m.at.Some? && m.at.value < newest && Queues(lim, l, Enqueueing(ev, m, at, size), ev.id)
  }

  lemma QueuesUnlessOlder(lim: Limits, l: Line, ev: Event, m: Marker, at: int, size: nat)
    requires lim.logs && Fits(lim, l.s, ev, at, size)
    ensures Queues(lim, l, Enqueueing(ev, m, at, size), ev.id) <==> !Older(m, l.s.checkpoints[ev.id].marker)
  {
  }

  /**
    Exactly when older content can still get in behind content of time `newest`: if and only if the stored marker
    does not parse or is itself older. The marker is what `FetchState` reports for the id.
   */
  lemma OlderGetsInExactlyWhenMarkerIsLost(lim: Limits, l: Line, ev: Event, at: int, size: nat, newest: int)
    requires lim.logs && Fits(lim, l.s, ev, at, size)
    ensures
      var marker := l.s.checkpoints[ev.id].marker;
      LetsOlderIn(lim, l, ev, at, size, newest) <==> marker.at.None? || marker.at.value < newest
  {
    var marker := l.s.checkpoints[ev.id].marker;
    if LetsOlderIn(lim, l, ev, at, size, newest) {
      var m: Marker :| m.at.Some? && m.at.value < newest && Queues(lim, l, Enqueueing(ev, m, at, size), ev.id);
      QueuesUnlessOlder(lim, l, ev, m, at, size);
    }
    if marker.at.None? || marker.at.value < newest {
      var m := Marker("", Some(if marker.at.None? then newest - 1 else marker.at.value));
      QueuesUnlessOlder(lim, l, ev, m, at, size);
    }
  }

  /** With room for two records of one id. */
  predicate RoomForTwo(lim: Limits, size: nat) {
    lim.logs && lim.maxCheckpoints > 0 && lim.maxEvents >= 2 && lim.maxBytes >= 2 * size
  }

  lemma FirstIsQueued(lim: Limits, ev: Event, marker: Marker, size: nat)
    requires RoomForTwo(lim, size) && ValidEvent(lim, ev)
    ensures
      var l := Step(lim, FRESH, Enqueueing(ev, marker, 1, size));
      && Queues(lim, FRESH, Enqueueing(ev, marker, 1, size), ev.id)
      && l.s.checkpoints == map[ev.id := Checkpoint(ev.id, marker, ev.hash, NoHash, 1, 1, 0)] && l.s.count == 1
          && l.s.bytes == size
  {
  }

  lemma MarkerIsErased(lim: Limits, l: Line, id: string, lost: Marker)
    requires id in l.s.checkpoints && ValidId(lim, id) && lost.at.None?
    ensures
      var l' := Step(lim, l, Seeing(id, lost, 2));
      && l'.s.checkpoints == l.s.checkpoints[id := l.s.checkpoints[id].(marker := lost, lastSeenAt := 2,
          absentSince := 0)]
      && l'.s.count == l.s.count && l'.s.bytes == l.s.bytes
  {
  }

  lemma OutOfOrder(a: Content, b: Content)
    requires b.time < a.time
    ensures forall top :: !InTimeOrder([a, b], top)
  {
    assert [a, b][0].time > [a, b][1].time;
  }

  /**
    The condition is needed for every marker that does not parse: seeing one between two details lets the older
    detail in behind the newer one, and the consumer ends up with the older content.
   */
  lemma {:induction false} LostMarkerLetsOlderContentIn(
    lim: Limits, newerEvent: Event, olderEvent: Event, newer: Marker, lost: Marker, older: Marker, size: nat)
        returns (tr: Trace)
    requires RoomForTwo(lim, size) && ValidEvent(lim, newerEvent) && ValidEvent(lim, olderEvent)
    requires newerEvent.id == olderEvent.id && newerEvent.hash != olderEvent.hash
    requires lost.at.None? && newer.at.Some? && older.at.Some? && older.at.value < newer.at.value
    ensures
      var ever := EverQueued(lim, tr, newerEvent.id);
      && ever == [Content(newerEvent.hash, newer.at.value), Content(olderEvent.hash, older.at.value)]
      && forall top :: !InTimeOrder(ever, top)
  {
    var id := newerEvent.id;
    var a1, a2, a3 := Enqueueing(newerEvent, newer, 1, size), Seeing(id, lost, 2),
        Enqueueing(olderEvent, older, 3, size);
    var t0: Trace := Start;
    var t1 := Then(t0, a1);
    var t2 := Then(t1, a2);
    tr := Then(t2, a3);
    var l1 := Step(lim, FRESH, a1);
    FirstIsQueued(lim, newerEvent, newer, size);
    var first, second := Content(newerEvent.hash, newer.at.value), Content(olderEvent.hash, older.at.value);
    EverQueuedNext(lim, t0, a1, FRESH, id);
    var l2 := Step(lim, l1, a2);
    MarkerIsErased(lim, l1, id, lost);
    EverQueuedNext(lim, t1, a2, l1, id);
    QueuesUnlessOlder(lim, l2, olderEvent, older, 3, size);
    QueuedUnderItsMarker(lim, l2, a3, id);
    EverQueuedNext(lim, t2, a3, l2, id);
    assert EverQueued(lim, tr, id) == [first] + [second];
    OutOfOrder(first, second);
  }
}
