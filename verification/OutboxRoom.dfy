/**
  When an outbox may refuse a submission: over every run, exactly when accepting it would take the real records,
  bytes or checkpoints beyond the limits, or, for an acknowledgement, when the stored contents disagree.
 */
module OutboxRoom {
  import opened Outbox
  import opened OutboxRuns
  import opened OutboxDelivery
  import opened OutboxMerge

  /** With this id known, there would be more checkpoints than allowed. */
  predicate TooManyIds(s: State, lim: Limits, id: string) {
    |s.checkpoints.Keys + {id}| > lim.maxCheckpoints
  }

  /** With one more record of this size, there would be more records or bytes than allowed. */
  predicate TooMuchQueued(s: State, lim: Limits, size: nat) {
    |s.queue| + 1 > lim.maxEvents || Bytes(s.queue) + size > lim.maxBytes
  }

  /** The content is the last one observed for the id. */
  predicate IsRepeat(l: Line, id: string, hash: Hash) {
    At(l.observed, id) != [] && At(l.observed, id)[|At(l.observed, id)| - 1] == hash
  }

  /** In the log store: the detail is older than what the checkpoint holds, both times known. */
  predicate IsOlderDetail(l: Line, lim: Limits, id: string, marker: Marker) {
    && lim.logs && id in l.s.checkpoints
    && marker.at.Some? && l.s.checkpoints[id].marker.at.Some? && marker.at.value < l.s.checkpoints[id].marker.at.value
  }

  /** A known id needs no new checkpoint; an unknown one needs one more. */
  lemma IdsNeeded(s: State, lim: Limits, id: string)
    requires |s.checkpoints| <= lim.maxCheckpoints
    ensures TooManyIds(s, lim, id) <==> id !in s.checkpoints && |s.checkpoints| >= lim.maxCheckpoints
  {
    assert |s.checkpoints| == |s.checkpoints.Keys|;
    if id in s.checkpoints {
      assert s.checkpoints.Keys + {id} == s.checkpoints.Keys;
    }
  }

  /** The store takes content for a repeat exactly when it is the last one observed. */
  lemma RepeatIsTold(lim: Limits, tr: Trace, id: string, hash: Hash)
    requires hash.Sha256?
    ensures SameContent(CheckpointOf(Run(lim, tr).s, id), hash) <==> IsRepeat(Run(lim, tr), id, hash)
  {
    var l := Run(lim, tr);
    RunKeepsStore(lim, tr);
    RunDelivers(lim, tr);
    GoodForEach(lim, l, id);
    if id in l.s.checkpoints {
      SameContentMeansRepeat(l.s.checkpoints[id], At(l.shipped, id), Hashes(l.s.queue, id), At(l.observed, id), hash);
    }
  }

  /**
    A submission is refused for lack of room if and only if a checkpoint is needed and there are as many as allowed, or
    new content is to be queued and records or bytes would exceed their limits. Otherwise its id is known afterwards,
    and a record is queued exactly for content that is neither older nor a repeat.
   */
  predicate RefusedExactlyBeyondLimits(
    s: State, s': State, status: Status, lim: Limits, ev: Event, at: int, size: nat, older: bool, repeat: bool)
  {
    && (status == Full <==> TooManyIds(s, lim, ev.id) || (!older && !repeat && TooMuchQueued(s, lim, size)))
    && (status != Full ==> ev.id in s'.checkpoints)
    && (status == Stale <==> status != Full && older)
    && (status == Repeat <==> status != Full && !older && repeat)
    && s'.queue ==
       if status == Full || older || repeat then s.queue
       else s.queue + [Record(s.lastSequence + 1, ev.id, ev.hash, ev.payloadOk, at, size)]
  }

  /** Every valid submission of a detail, in every run. */
  lemma EnqueueRefusesExactlyBeyondLimits(lim: Limits, tr: Trace, ev: Event, marker: Marker, at: int, size: nat)
    requires ValidEvent(lim, ev) && at > 0
    ensures
      var l := Run(lim, tr);
      var (s', status) := Enqueue(l.s, lim, ev, marker, at, size);
      var older, repeat := IsOlderDetail(l, lim, ev.id, marker), IsRepeat(l, ev.id, ev.hash);
      RefusedExactlyBeyondLimits(l.s, s', status, lim, ev, at, size, older, repeat)
  {
    var l := Run(lim, tr);
    BooksAreTrue(lim, tr);
    RepeatIsTold(lim, tr, ev.id, ev.hash);
    OlderIsTold(l, lim, ev.id, marker);
    var older, repeat := IsOlderDetail(l, lim, ev.id, marker), IsRepeat(l, ev.id, ev.hash);
    SubmissionOutcome(l.s, lim, ev, marker, at, size, older, repeat);
  }

  lemma OlderIsTold(l: Line, lim: Limits, id: string, marker: Marker)
    ensures lim.logs && Older(marker, CheckpointOf(l.s, id).marker) <==> IsOlderDetail(l, lim, id, marker)
  {
  }

  /** What the limits are compared with are the real counts. */
  lemma BooksAreTrue(lim: Limits, tr: Trace)
    ensures
      var s := Run(lim, tr).s;
      s.count == |s.queue| && s.bytes == Bytes(s.queue) && |s.checkpoints| <= lim.maxCheckpoints
  {
    RunKeepsStore(lim, tr);
    RunStaysWithinLimits(lim, tr);
  }

  /** The outcome of a submission, given whether the store takes it for older and for a repeat. */
  lemma SubmissionOutcome(
    s: State, lim: Limits, ev: Event, marker: Marker, at: int, size: nat, older: bool, repeat: bool)
    requires ValidEvent(lim, ev) && s.count == |s.queue| && s.bytes == Bytes(s.queue)
    requires |s.checkpoints| <= lim.maxCheckpoints
    requires older <==> lim.logs && Older(marker, CheckpointOf(s, ev.id).marker)
    requires repeat <==> SameContent(CheckpointOf(s, ev.id), ev.hash)
    ensures
      var (s', status) := Enqueue(s, lim, ev, marker, at, size);
      RefusedExactlyBeyondLimits(s, s', status, lim, ev, at, size, older, repeat)
  {
    IdsNeeded(s, lim, ev.id);
  }

  /** Marking an id as seen is refused if and only if it needs a checkpoint and there are as many as allowed. */
  lemma MarkSeenRefusesExactlyBeyondLimits(lim: Limits, tr: Trace, id: string, marker: Marker, at: int)
    ensures
      var s := Run(lim, tr).s;
      var (s', status) := MarkSeen(s, lim, id, marker, at);
      && (status == Full <==> TooManyIds(s, lim, id)) && (status != Full ==> id in s'.checkpoints)
      && s'.queue == s.queue
  {
    BooksAreTrue(lim, tr);
    IdsNeeded(Run(lim, tr).s, lim, id);
  }

  /**
    Over any stored contents: an acknowledgement is refused as corruption if and only if the record is malformed, has no
    checkpoint, or its checkpoint's pending hash is not that of the id's newest record; then nothing changes.
   */
  lemma AckRefusesExactlyDisagreement(lim: Limits, s: State, i: nat)
    requires i < |s.queue| && Increasing(s.queue)
    ensures
      var (s', status) := Acknowledge(lim, s, s.queue[i].sequence);
      var r := s.queue[i];
      && (status == Done <==>
            RecordOk(lim, r) && r.id in s.checkpoints && s.checkpoints[r.id].pendingHash == Newest(s.queue, r.id))
      && (status == Done || (status == Corrupt && s' == s))
  {
    PositionIsUnique(s.queue, i);
  }

  // ---------------------------------------------------------------- the alert store's marker

  predicate LastSubmitted(l: Line, id: string) {
    id in l.s.checkpoints ==>
      At(l.marks, id) != [] && l.s.checkpoints[id].marker == At(l.marks, id)[|At(l.marks, id)| - 1]
  }

  /** A marker was submitted for `id` and put into its checkpoint. */
  ghost predicate Put(l: Line, l': Line, id: string, marker: Marker) {
    l'.marks == Grown(l.marks, id, [marker]) && MarkerPut(l.s, l'.s, id, marker)
  }

  lemma AlertEnqueuePuts(lim: Limits, l: Line, a: Action)
    requires !lim.logs && a.Enqueueing? && Enqueue(l.s, lim, a.ev, a.marker, a.at, a.size).1 != Full
    ensures Put(l, AfterEnqueue(l, lim, a), a.ev.id, a.marker)
  {
    EnqueueReachesStore(l, lim, a);
  }

  lemma AlertSeeingPuts(lim: Limits, l: Line, a: Action)
    requires !lim.logs && a.Seeing? && Enabled(lim, l, a) && MarkSeen(l.s, lim, a.id, a.marker, a.at).1 != Full
    ensures Put(l, Step(lim, l, a), a.id, a.marker)
  {
  }

  lemma PutKeepsLastSubmitted(l: Line, l': Line, id: string, marker: Marker, other: string)
    requires Put(l, l', id, marker) && LastSubmitted(l, other)
    ensures LastSubmitted(l', other)
  {
    if other != id {
      assert At(l'.marks, other) == At(l.marks, other);
    }
  }

  lemma StepKeepsLastSubmitted(lim: Limits, l: Line, a: Action, id: string)
    requires LastSubmitted(l, id) && !lim.logs && (l.s.queue != [] ==> HeadRemoved(lim, l.s))
    ensures LastSubmitted(Step(lim, l, a), id)
  {
    var l' := Step(lim, l, a);
    if l' != l {
      if a.Enqueueing? {
        AlertEnqueuePuts(lim, l, a);
        PutKeepsLastSubmitted(l, l', a.ev.id, a.marker, id);
      } else if a.Seeing? {
        AlertSeeingPuts(lim, l, a);
        PutKeepsLastSubmitted(l, l', a.id, a.marker, id);
      } else {
        OtherLeavesMarkers(lim, l, a);
      }
    }
  }

  lemma {:induction false} RunKeepsLastSubmitted(lim: Limits, tr: Trace, id: string)
    requires !lim.logs
    ensures LastSubmitted(Run(lim, tr), id)
  {
    if tr.Then? {
      RunKeepsLastSubmitted(lim, tr.before, id);
      if Run(lim, tr.before).s.queue != [] {
        HeadAcksCleanly(lim, tr.before);
      }
      StepKeepsLastSubmitted(lim, Run(lim, tr.before), tr.action, id);
    }
  }

  /** In the alert store a checkpoint's marker is always the last one submitted for its id. */
  lemma {:induction false} AlertMarkerIsLastSubmitted(lim: Limits, tr: Trace, id: string)
    requires !lim.logs && id in Run(lim, tr).s.checkpoints
    ensures
      var l := Run(lim, tr);
      At(l.marks, id) != [] && l.s.checkpoints[id].marker == At(l.marks, id)[|At(l.marks, id)| - 1]
  {
    RunKeepsLastSubmitted(lim, tr, id);
  }
}
