/**
  What an outbox remembers about when an id was fetched, seen and missed, and when it forgets the id. The times
  of a checkpoint are compared with what the run itself says, action by action.
 */
module OutboxPresence {
  import opened Runs
  import opened Outbox
  import opened OutboxRuns

  /** When the id was last fetched and last seen, and the first complete list that lacked it since (0 for never). */
  datatype Times = Times(fetched: int, seen: int, absent: int)

  const NEVER: Times := Times(0, 0, 0)

  function TimesOf(cp: Checkpoint): Times {
    Times(cp.lastFetchedAt, cp.lastSeenAt, cp.absentSince)
  }

  /** A detail of the id was accepted, repeated or not. */
  predicate Fetches(lim: Limits, l: Line, a: Action, id: string) {
    a.Enqueueing? && Enabled(lim, l, a) && a.ev.id == id
        && Enqueue(l.s, lim, a.ev, a.marker, a.at, a.size).1 in {Inserted, Repeat}
  }

  predicate Sees(lim: Limits, l: Line, a: Action, id: string) {
    a.Seeing? && Enabled(lim, l, a) && a.id == id && MarkSeen(l.s, lim, a.id, a.marker, a.at).1 == Done
  }

  /** A complete list lacks the id. */
  predicate Misses(a: Action, id: string) {
    a.Reconciling? && a.now > 0 && a.complete && id !in a.listed
  }

  function NextTimes(lim: Limits, l: Line, a: Action, id: string, t: Times): Times {
    if Fetches(lim, l, a, id) then Times(a.at, a.at, 0)
    else if Sees(lim, l, a, id) then Times(t.fetched, a.at, 0)
    else if Misses(a, id) && t.absent == 0 then t.(absent := a.now)
    else t
  }

  /** The times of an id as the run tells them, starting over whenever the id is unknown. */
  function Told(lim: Limits, tr: Trace, id: string): Times {
    if tr.Start? || id !in Run(lim, tr).s.checkpoints then NEVER
    else NextTimes(lim, Run(lim, tr.before), tr.action, id, Told(lim, tr.before, id))
  }

  /** The store agrees with `t` about the id. */
  predicate Remembers(s: State, id: string, t: Times) {
    t == if id in s.checkpoints then TimesOf(s.checkpoints[id]) else NEVER
  }

  lemma EnqueueRemembers(lim: Limits, l: Line, a: Action, id: string, t: Times)
    requires a.Enqueueing? && Enabled(lim, l, a) && Remembers(l.s, id, t)
    ensures
      var s' := Enqueue(l.s, lim, a.ev, a.marker, a.at, a.size).0;
      id in s'.checkpoints ==> Remembers(s', id, NextTimes(lim, l, a, id, t))
  {
  }

  lemma SeeingRemembers(lim: Limits, l: Line, a: Action, id: string, t: Times)
    requires a.Seeing? && Enabled(lim, l, a) && Remembers(l.s, id, t)
    ensures
      var s' := MarkSeen(l.s, lim, a.id, a.marker, a.at).0;
      id in s'.checkpoints ==> Remembers(s', id, NextTimes(lim, l, a, id, t))
  {
  }

  lemma ReconcileRemembers(lim: Limits, l: Line, a: Action, id: string, t: Times)
    requires a.Reconciling? && Enabled(lim, l, a) && Remembers(l.s, id, t)
    requires id in l.s.checkpoints ==> l.s.checkpoints[id].id == id
    ensures
      var s' := Reconcile(l.s, lim, a.listed, a.now, a.complete).0;
      id in s'.checkpoints ==> Remembers(s', id, NextTimes(lim, l, a, id, t))
  {
  }

  lemma AckRemembers(lim: Limits, l: Line, id: string, t: Times)
    requires l.s.queue != [] && HeadRemoved(lim, l.s) && Remembers(l.s, id, t)
    ensures Remembers(AfterAck(lim, l).s, id, t)
  {
  }

  lemma StepRemembers(lim: Limits, l: Line, a: Action, id: string, t: Times)
    requires Remembers(l.s, id, t) && (l.s.queue != [] ==> HeadRemoved(lim, l.s))
    requires id in l.s.checkpoints ==> l.s.checkpoints[id].id == id
    requires id in Step(lim, l, a).s.checkpoints
    ensures Remembers(Step(lim, l, a).s, id, NextTimes(lim, l, a, id, t))
  {
    if Enabled(lim, l, a) {
      match a
      case Enqueueing(_, _, _, _) =>
        EnqueueReachesStore(l, lim, a);
        EnqueueRemembers(lim, l, a, id, t);
      case Seeing(_, _, _) => SeeingRemembers(lim, l, a, id, t);
      case Reconciling(_, _, _) => ReconcileRemembers(lim, l, a, id, t);
      case Publishing(_) =>
      case Acking => AckRemembers(lim, l, id, t);
      case Reopening =>
    }
  }

  /** After every run each checkpoint's times are the ones the run tells. */
  lemma {:induction false} CheckpointTimesAreTold(lim: Limits, tr: Trace, id: string)
    ensures Remembers(Run(lim, tr).s, id, Told(lim, tr, id))
  {
    if tr.Then? && id in Run(lim, tr).s.checkpoints {
      var l := Run(lim, tr.before);
      CheckpointTimesAreTold(lim, tr.before, id);
      RunKeepsStore(lim, tr.before);
      if l.s.queue != [] {
        AckOfHead(lim, l.s);
      }
      StepRemembers(lim, l, tr.action, id, Told(lim, tr.before, id));
    }
  }

  /** When this action misses the id, since when it has been missing. */
  function MissingSince(t: Times, now: int): int {
    if t.absent == 0 then now else t.absent
  }

  /**
    An id is forgotten exactly when a complete list lacks it, nothing of it is queued, and the first such list
    since it was last fetched or seen is at least the retention ago. Being listed in between does not matter.
   */
  lemma {:induction false} ForgottenExactlyWhenLongMissed(lim: Limits, tr: Trace, a: Action, id: string)
    requires id in Run(lim, tr).s.checkpoints
    ensures id !in Run(lim, Then(tr, a)).s.checkpoints <==>
              && Misses(a, id) && Hashes(Run(lim, tr).s.queue, id) == []
              && a.now - MissingSince(Told(lim, tr, id), a.now) >= lim.retention
  {
    var l := Run(lim, tr);
    CheckpointTimesAreTold(lim, tr, id);
    RunKeepsStore(lim, tr);
    PendingMeansQueued(lim, l.s, id);
    if !a.Reconciling? {
      if l.s.queue != [] {
        AckOfHead(lim, l.s);
      }
      OnlyReconcileForgets(lim, l, a, id);
    }
  }

  lemma OnlyReconcileForgets(lim: Limits, l: Line, a: Action, id: string)
    requires id in l.s.checkpoints && !a.Reconciling? && (l.s.queue != [] ==> HeadRemoved(lim, l.s))
    ensures id in Step(lim, l, a).s.checkpoints
  {
    if a.Enqueueing? {
      EnqueueReachesStore(l, lim, a);
    }
  }

  lemma PendingMeansQueued(lim: Limits, s: State, id: string)
    requires StoreInv(lim, s) && id in s.checkpoints
    ensures s.checkpoints[id].pendingHash == NoHash <==> Hashes(s.queue, id) == []
  {
    HashesAreValid(lim, s.queue, id);
  }

  lemma ReconcileOne(lim: Limits, l: Line, a: Action, id: string, cp: Checkpoint)
    requires l.s.checkpoints == map[id := cp] && cp.id == id && a.Reconciling? && a.complete && a.now > 0
    ensures Step(lim, l, a).s.checkpoints ==
            if Evictable(cp, lim, a.listed, a.now) then map[] else map[id := Marked(cp, a.listed, a.now)]
  {
  }

  /** An id that was listed between two misses is forgotten all the same. */
  lemma {:induction false} ListingInBetweenIsNoReprieve(lim: Limits, id: string, marker: Marker) returns (tr: Trace)
    requires ValidId(lim, id) && lim.maxCheckpoints > 0 && lim.retention > 1
    ensures tr.Then? && id in Run(lim, tr.before).s.checkpoints && id !in Run(lim, tr).s.checkpoints
    ensures tr.before.Then? && tr.before.action == Reconciling({id}, 3, true)
  {
    var a1, a2, a3, a4 := Seeing(id, marker, 1), Reconciling({}, 2, true), Reconciling({id}, 3, true),
        Reconciling({}, 2 + lim.retention, true);
    tr := Then(Then(Then(Then(Start, a1), a2), a3), a4);
    var l1 := Step(lim, FRESH, a1);
    var cp := Checkpoint(id, marker, NoHash, NoHash, 0, 1, 0);
    assert l1.s.checkpoints == map[id := cp];
    var l2 := Step(lim, l1, a2);
    ReconcileOne(lim, l1, a2, id, cp);
    var l3 := Step(lim, l2, a3);
    ReconcileOne(lim, l2, a3, id, cp.(absentSince := 2));
    ReconcileOne(lim, l3, a4, id, cp.(absentSince := 2));
    assert Run(lim, Then(Start, a1)) == l1;
    assert Run(lim, Then(Then(Start, a1), a2)) == l2;
  }

  // ---------------------------------------------------------------- the full flag

  /** A key count the statistics can report: anything from what is left to what was there before the deletes. */
  predicate Reportable(s: State, s': State, keyN: nat) {
    |s'.checkpoints| <= keyN <= |s.checkpoints|
  }

  /**
    Exactly when `ReconcileListed` returns the right status: unless the log store's statistics still count deleted
    checkpoints and thereby reach the limit that the remaining ones are below.
   */
  lemma StatusIsRightExactlyWhen(lim: Limits, s: State, listed: set<string>, now: int, keyN: nat)
    requires Reportable(s, Reconcile(s, lim, listed, now, true).0, keyN)
    ensures
      var (s', status) := Reconcile(s, lim, listed, now, true);
      && (ReconcileStatus(lim, |s'.checkpoints|, keyN) == status <==>
            !(lim.logs && |s'.checkpoints| < lim.maxCheckpoints <= keyN))
      && (status == Full ==> ReconcileStatus(lim, |s'.checkpoints|, keyN) == Full)
  {
  }

  /** In a log store for one checkpoint, a run evicts that checkpoint and may still report a full store. */
  lemma {:induction false} RoomCanBeReportedFull(lim: Limits, id: string, marker: Marker) returns (tr: Trace, a: Action)
    requires ValidId(lim, id) && lim.logs && lim.maxCheckpoints == 1 && lim.retention > 0
    ensures a.Reconciling? && a.complete
    ensures
      var s, s' := Run(lim, tr).s, Run(lim, Then(tr, a)).s;
      && |s.checkpoints| == 1 && |s'.checkpoints| == 0 && Reportable(s, s', 1)
      && s' == Reconcile(s, lim, a.listed, a.now, true).0
      && Reconcile(s, lim, a.listed, a.now, true).1 == Done && ReconcileStatus(lim, |s'.checkpoints|, 1) == Full
  {
    var a1, a2 := Seeing(id, marker, 1), Reconciling({}, 2, true);
    var t0: Trace := Start;
    var t1 := Then(t0, a1);
    tr, a := Then(t1, a2), Reconciling({}, 2 + lim.retention, true);
    var cp := Checkpoint(id, marker, NoHash, NoHash, 0, 1, 0);
    var l1 := Step(lim, FRESH, a1);
    assert l1.s.checkpoints == map[id := cp];
    var l2 := Step(lim, l1, a2);
    ReconcileOne(lim, l1, a2, id, cp);
    ReconcileOne(lim, l2, a, id, cp.(absentSince := 2));
    assert Run(lim, t1) == l1;
    assert Run(lim, tr) == l2;
  }
}
