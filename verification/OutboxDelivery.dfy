/**
  What consumers of an outbox can rely on over every run: per id, the hashes acknowledged and queued are the
  observed ones with repeats collapsed, and on the wire nothing is reordered or lost.
 */
module OutboxDelivery {
  import opened Outbox
  import opened Collapse
  import opened OutboxRuns

  // ---------------------------------------------------------------- delivery refines observation

  /**
    One id: acknowledged then queued hashes are the collapsed observed ones, and the checkpoint knows the last
    acknowledged.
   */
  ghost predicate Faithful(cp: Checkpoint, shipped: seq<Hash>, queued: seq<Hash>, observed: seq<Hash>) {
    shipped + queued == Collapsed(observed) && cp.deliveredHash == Last(shipped)
  }

  ghost predicate DeliveredFor(l: Line, id: string)
    requires id in l.s.checkpoints
  {
    Faithful(l.s.checkpoints[id], At(l.shipped, id), Hashes(l.s.queue, id), At(l.observed, id))
  }

  ghost predicate DeliveryInv(l: Line) {
    && (forall id :: id in l.s.checkpoints ==> DeliveredFor(l, id))
    && (forall id :: id !in l.s.checkpoints ==> id !in l.observed && id !in l.shipped && id !in l.marks)
  }

  /** A checkpoint takes a hash for a repeat exactly when it was the last one observed. */
  lemma SameContentMeansRepeat(cp: Checkpoint, shipped: seq<Hash>, queued: seq<Hash>, observed: seq<Hash>, hash: Hash)
    requires Faithful(cp, shipped, queued, observed) && cp.pendingHash == Last(queued) && hash.Sha256?
    requires forall i :: 0 <= i < |queued| ==> queued[i].Sha256?
    ensures SameContent(cp, hash) <==> observed != [] && observed[|observed| - 1] == hash
  {
    if observed != [] {
      CollapsedLast(observed);
    }
  }

  /** Observing a hash keeps the relation: a repeat queues nothing, anything else is queued. */
  lemma FaithfulAfterObserving(cp: Checkpoint, shipped: seq<Hash>, queued: seq<Hash>, observed: seq<Hash>, hash: Hash)
    requires Faithful(cp, shipped, queued, observed) && cp.pendingHash == Last(queued) && hash.Sha256?
    requires forall i :: 0 <= i < |queued| ==> queued[i].Sha256?
    ensures Faithful(cp, shipped, if SameContent(cp, hash) then queued else queued + [hash], observed + [hash])
  {
    SameContentMeansRepeat(cp, shipped, queued, observed, hash);
    CollapsedAppend(observed, hash);
    assert shipped + (queued + [hash]) == shipped + queued + [hash];
  }

  lemma FaithfulAfterAck(cp: Checkpoint, cp': Checkpoint, shipped: seq<Hash>, hash: Hash, queued: seq<Hash>,
                         observed: seq<Hash>)
    requires Faithful(cp, shipped, [hash] + queued, observed) && cp'.deliveredHash == hash
    ensures Faithful(cp', shipped + [hash], queued, observed)
  {
    assert shipped + [hash] + queued == shipped + ([hash] + queued);
  }

  /** What one id contributes to the invariants. */
  ghost predicate GoodFor(l: Line, id: string) {
    && (id in l.s.checkpoints ==> DeliveredFor(l, id) && l.s.checkpoints[id].pendingHash == Newest(l.s.queue, id))
    && (id !in l.s.checkpoints ==> id !in l.observed && id !in l.shipped && Hashes(l.s.queue, id) == [])
    && (forall i :: 0 <= i < |Hashes(l.s.queue, id)| ==> Hashes(l.s.queue, id)[i].Sha256?)
  }

  lemma GoodForEach(lim: Limits, l: Line, id: string)
    requires StoreInv(lim, l.s) && DeliveryInv(l)
    ensures GoodFor(l, id)
  {
    HashesEmpty(l.s.queue, id);
    HashesAreValid(lim, l.s.queue, id);
  }

  /** Nothing of this id changes; a record of another id may be queued. */
  ghost predicate Unrelated(l: Line, l': Line, id: string, r: Record) {
    && (id in l.s.checkpoints <==> id in l'.s.checkpoints)
    && (id in l.s.checkpoints && id in l'.s.checkpoints ==> l'.s.checkpoints[id] == l.s.checkpoints[id])
    && At(l'.observed, id) == At(l.observed, id) && At(l'.shipped, id) == At(l.shipped, id)
    && r.id != id && l'.s.queue in {l.s.queue, l.s.queue + [r]}
  }

  lemma EnqueueIsUnrelated(l: Line, lim: Limits, a: Action, id: string)
    requires a.Enqueueing? && id != a.ev.id
    ensures Unrelated(l, AfterEnqueue(l, lim, a), id, NextRecord(l.s, a.ev, a.at, a.size))
  {
  }

  lemma UnrelatedDelivers(l: Line, l': Line, id: string, r: Record)
    requires Unrelated(l, l', id, r) && id in l.s.checkpoints && DeliveredFor(l, id)
    ensures DeliveredFor(l', id)
  {
    HashesAppend(l.s.queue, r, id);
  }

  /** What an accepted `Enqueue` does to the books of its id. */
  ghost predicate Observed(l: Line, l': Line, ev: Event, r: Record) {
    var id := ev.id;
    && id in l'.s.checkpoints && l'.s.checkpoints[id].deliveredHash == CheckpointOf(l.s, id).deliveredHash
    && At(l'.observed, id) == At(l.observed, id) + [ev.hash] && At(l'.shipped, id) == At(l.shipped, id)
    && l'.s.queue == if SameContent(CheckpointOf(l.s, id), ev.hash) then l.s.queue else l.s.queue + [r]
  }

  lemma EnqueueEffect(l: Line, lim: Limits, a: Action)
    requires a.Enqueueing? && Enqueue(l.s, lim, a.ev, a.marker, a.at, a.size).1 in {Inserted, Repeat}
    ensures Observed(l, AfterEnqueue(l, lim, a), a.ev, NextRecord(l.s, a.ev, a.at, a.size))
  {
    assert At(l.shipped, a.ev.id) + [] == At(l.shipped, a.ev.id);
  }

  lemma ObservedDelivers(l: Line, l': Line, ev: Event, r: Record)
    requires Observed(l, l', ev, r) && r.id == ev.id && r.hash == ev.hash && ev.hash.Sha256? && GoodFor(l, ev.id)
    ensures DeliveredFor(l', ev.id)
  {
    var id := ev.id;
    FaithfulAfterObserving(CheckpointOf(l.s, id), At(l.shipped, id), Hashes(l.s.queue, id), At(l.observed, id),
                           ev.hash);
    HashesAppend(l.s.queue, r, id);
  }

  lemma EnqueueDeliversFor(l: Line, lim: Limits, a: Action, id: string)
    requires a.Enqueueing? && a.ev.hash.Sha256? && GoodFor(l, id)
    requires id in AfterEnqueue(l, lim, a).s.checkpoints
    ensures DeliveredFor(AfterEnqueue(l, lim, a), id)
  {
    if id != a.ev.id {
      EnqueueIsUnrelated(l, lim, a, id);
      UnrelatedDelivers(l, AfterEnqueue(l, lim, a), id, NextRecord(l.s, a.ev, a.at, a.size));
    } else if Enqueue(l.s, lim, a.ev, a.marker, a.at, a.size).1 in {Inserted, Repeat} {
      EnqueueEffect(l, lim, a);
      ObservedDelivers(l, AfterEnqueue(l, lim, a), a.ev, NextRecord(l.s, a.ev, a.at, a.size));
    }
  }

  lemma SeeingDeliversFor(l: Line, lim: Limits, a: Action, id: string)
    requires a.Seeing? && Enabled(lim, l, a) && GoodFor(l, id)
    requires id in Step(lim, l, a).s.checkpoints
    ensures DeliveredFor(Step(lim, l, a), id)
  {
    var l' := Step(lim, l, a);
    assert At(l'.shipped, id) == At(l.shipped, id) && At(l'.observed, id) == At(l.observed, id);
  }

  lemma HashesOfRest(q: seq<Record>, id: string)
    requires q != []
    ensures Without(q, 0) == q[1..]
    ensures Hashes(q, id) == if q[0].id == id then [q[0].hash] + Hashes(q[1..], id) else Hashes(q[1..], id)
  {
    AroundPosition(q, 0, id);
    assert q[..0] == [] && Without(q, 0) == q[1..];
    assert [] + [q[0].hash] + Hashes(q[1..], id) == [q[0].hash] + Hashes(q[1..], id);
  }

  lemma AckDeliversFor(lim: Limits, l: Line, id: string)
    requires l.s.queue != [] && HeadRemoved(lim, l.s) && id in l.s.checkpoints && DeliveredFor(l, id)
    ensures id in AfterAck(lim, l).s.checkpoints && DeliveredFor(AfterAck(lim, l), id)
  {
    var head, l' := l.s.queue[0], AfterAck(lim, l);
    HashesOfRest(l.s.queue, id);
    assert l'.s == Remove(l.s, 0, Delivered(l.s.checkpoints[head.id], l.s.queue, 0));
    if id == head.id {
      FaithfulAfterAck(l.s.checkpoints[id], l'.s.checkpoints[id], At(l.shipped, id), head.hash,
                       Hashes(l.s.queue[1..], id), At(l.observed, id));
    }
  }

  lemma StepDeliversFor(lim: Limits, l: Line, a: Action, id: string)
    requires GoodFor(l, id) && id in Step(lim, l, a).s.checkpoints
    requires l.s.queue != [] ==> HeadRemoved(lim, l.s)
    ensures DeliveredFor(Step(lim, l, a), id)
  {
    if Enabled(lim, l, a) {
      match a
      case Enqueueing(_, _, _, _) => EnqueueDeliversFor(l, lim, a, id);
      case Seeing(_, _, _) => SeeingDeliversFor(l, lim, a, id);
      case Reconciling(_, _, _) =>
      case Publishing(_) =>
      case Acking => AckDeliversFor(lim, l, id);
      case Reopening =>
    }
  }

  /** Bookkeeping exists only for ids with a checkpoint. */
  predicate NoBooks(l: Line, id: string) {
    id !in l.observed && id !in l.shipped && id !in l.marks
  }

  lemma EnqueueKeepsBooks(lim: Limits, l: Line, a: Action, id: string)
    requires a.Enqueueing? && (id !in l.s.checkpoints ==> NoBooks(l, id))
    requires id !in AfterEnqueue(l, lim, a).s.checkpoints
    ensures NoBooks(AfterEnqueue(l, lim, a), id)
  {
  }

  lemma StepKeepsBooks(lim: Limits, l: Line, a: Action, id: string)
    requires (id !in l.s.checkpoints ==> NoBooks(l, id)) && id !in Step(lim, l, a).s.checkpoints
    requires a.Acking? && l.s.queue != [] ==> HeadRemoved(lim, l.s)
    ensures NoBooks(Step(lim, l, a), id)
  {
    if a.Enqueueing? && Enabled(lim, l, a) {
      EnqueueKeepsBooks(lim, l, a, id);
    }
  }

  lemma {:induction false} RunDelivers(lim: Limits, tr: Trace)
    ensures DeliveryInv(Run(lim, tr))
  {
    if tr.Then? {
      var l, l' := Run(lim, tr.before), Run(lim, tr);
      RunDelivers(lim, tr.before);
      RunKeepsStore(lim, tr.before);
      if l.s.queue != [] {
        AckOfHead(lim, l.s);
      }
      forall id | id in l'.s.checkpoints
        ensures DeliveredFor(l', id)
      {
        GoodForEach(lim, l, id);
        StepDeliversFor(lim, l, tr.action, id);
      }
      forall id | id !in l'.s.checkpoints
        ensures id !in l'.observed && id !in l'.shipped && id !in l'.marks
      {
        StepKeepsBooks(lim, l, tr.action, id);
      }
    }
  }

  /**
    For an id whose checkpoint is still there, the acknowledged hashes followed by the queued ones are the
    hashes observed since the checkpoint was created, with consecutive duplicates removed.
   */
  lemma {:induction false} DeliveryRefinesObservation(lim: Limits, tr: Trace, id: string)
    requires id in Run(lim, tr).s.checkpoints
    ensures
      var l := Run(lim, tr);
      At(l.shipped, id) + Hashes(l.s.queue, id) == Collapsed(At(l.observed, id))
  {
    RunDelivers(lim, tr);
    assert DeliveredFor(Run(lim, tr), id);
  }

  // ---------------------------------------------------------------- the wire

  /**
    The queue is the unacknowledged rest of the history, and the wire has its acknowledged part, plus maybe the head.
   */
  ghost predicate WireInv(l: Line) {
    && l.acked <= |l.history| && l.s.queue == l.history[l.acked..]
    && Ordered(l.history, l.s.lastSequence)
    && (Collapsed(l.wire) == l.history[..l.acked]
        || (l.acked < |l.history| && Collapsed(l.wire) == l.history[..l.acked + 1]))
  }

  lemma HeadIsNext(l: Line)
    requires WireInv(l) && l.s.queue != []
    ensures l.acked < |l.history| && l.history[l.acked] == l.s.queue[0]
    ensures l.history[..l.acked + 1] == l.history[..l.acked] + [l.s.queue[0]]
    ensures l.s.queue[1..] == l.history[l.acked + 1..]
    ensures l.wire != [] && l.wire[|l.wire| - 1] == l.s.queue[0] ==> Collapsed(l.wire) == l.history[..l.acked + 1]
    ensures l.wire == [] || l.wire[|l.wire| - 1] != l.s.queue[0] ==> Collapsed(l.wire) == l.history[..l.acked]
  {
    if l.wire != [] {
      CollapsedLast(l.wire);
    }
  }

  lemma PublishKeepsWire(l: Line)
    requires WireInv(l) && l.s.queue != []
    ensures WireInv(l.(wire := l.wire + [l.s.queue[0]]))
  {
    HeadIsNext(l);
    CollapsedAppend(l.wire, l.s.queue[0]);
  }

  lemma AckKeepsWire(lim: Limits, l: Line)
    requires WireInv(l) && Enabled(lim, l, Acking) && HeadRemoved(lim, l.s)
    ensures WireInv(AfterAck(lim, l))
  {
    HeadIsNext(l);
    assert Without(l.s.queue, 0) == l.s.queue[1..];
  }

  lemma InsertKeepsWire(l: Line, l': Line, r: Record)
    requires WireInv(l) && r.sequence == l.s.lastSequence + 1
    requires l'.s.queue == l.s.queue + [r] && l'.history == l.history + [r] && l'.s.lastSequence == r.sequence
    requires l'.acked == l.acked && l'.wire == l.wire
    ensures WireInv(l')
  {
    assert l'.history[l.acked..] == l.history[l.acked..] + [r];
    assert l'.history[..l.acked] == l.history[..l.acked];
    assert l.acked < |l.history| ==> l'.history[..l.acked + 1] == l.history[..l.acked + 1];
  }

  lemma EnqueueKeepsWire(lim: Limits, l: Line, a: Action)
    requires WireInv(l) && a.Enqueueing?
    ensures WireInv(AfterEnqueue(l, lim, a))
  {
    if Enqueue(l.s, lim, a.ev, a.marker, a.at, a.size).1 == Inserted {
      InsertKeepsWire(l, AfterEnqueue(l, lim, a), NextRecord(l.s, a.ev, a.at, a.size));
    }
  }

  lemma OtherKeepsWire(lim: Limits, l: Line, a: Action)
    requires WireInv(l) && (a.Seeing? || a.Reconciling? || a.Reopening?)
    ensures WireInv(Step(lim, l, a))
  {
    var l' := Step(lim, l, a);
    assert l'.s.queue == l.s.queue && l'.s.lastSequence == l.s.lastSequence;
    assert l'.history == l.history && l'.acked == l.acked && l'.wire == l.wire;
  }

  lemma StepKeepsWire(lim: Limits, l: Line, a: Action)
    requires WireInv(l) && (l.s.queue != [] ==> HeadRemoved(lim, l.s))
    ensures WireInv(Step(lim, l, a))
  {
    if Enabled(lim, l, a) {
      match a
      case Enqueueing(_, _, _, _) => EnqueueKeepsWire(lim, l, a);
      case Publishing(_) => PublishKeepsWire(l);
      case Acking => AckKeepsWire(lim, l);
      case _ => OtherKeepsWire(lim, l, a);
    }
  }

  lemma {:induction false} RunKeepsWire(lim: Limits, tr: Trace)
    ensures WireInv(Run(lim, tr))
  {
    if tr.Then? {
      RunKeepsWire(lim, tr.before);
      if Run(lim, tr.before).s.queue != [] {
        HeadAcksCleanly(lim, tr.before);
      }
      StepKeepsWire(lim, Run(lim, tr.before), tr.action);
    }
  }

  /** Collapsing to an increasing sequence means the sequence never stepped back. */
  lemma {:induction false} NeverStepsBack(xs: seq<Record>)
    requires Increasing(Collapsed(xs))
    ensures forall i, j :: 0 <= i < j < |xs| ==> xs[i].sequence <= xs[j].sequence
  {
    if |xs| > 1 {
      var front, x := xs[..|xs| - 1], xs[|xs| - 1];
      assert xs == front + [x];
      CollapsedAppend(front, x);
      CollapsedLast(front);
      assert forall i :: 0 <= i < |Collapsed(front)| ==> Collapsed(front)[i] == Collapsed(xs)[i];
      NeverStepsBack(front);
    }
  }

  /** Nothing is reordered or skipped: what reached Kafka, repeats collapsed, is a prefix of what was queued. */
  lemma WireIsInOrder(lim: Limits, tr: Trace)
    ensures
      var l := Run(lim, tr);
      && Collapsed(l.wire) <= l.history
      && forall i, j :: 0 <= i < j < |l.wire| ==> l.wire[i].sequence <= l.wire[j].sequence
  {
    RunKeepsWire(lim, tr);
    NeverStepsBack(Run(lim, tr).wire);
  }

  lemma NewestAppend(q: seq<Record>, r: Record, id: string)
    ensures Newest(q + [r], id) == if r.id == id then r.hash else Newest(q, id)
  {
    HashesAppend(q, r, id);
  }

  lemma NewestRepeat(q: seq<Record>, id: string)
    requires q != []
    ensures Newest(q + [q[|q| - 1]], id) == Newest(q, id)
  {
    var front, x := q[..|q| - 1], q[|q| - 1];
    assert q == front + [x];
    NewestAppend(front, x, id);
    NewestAppend(q, x, id);
  }

  lemma {:induction false} CollapseKeepsNewest(xs: seq<Record>, id: string)
    ensures Newest(Collapsed(xs), id) == Newest(xs, id)
  {
    if |xs| > 1 {
      var front, x := xs[..|xs| - 1], xs[|xs| - 1];
      CollapseKeepsNewest(front, id);
      assert xs == front + [x];
      if x == xs[|xs| - 2] {
        NewestRepeat(front, id);
      } else {
        NewestAppend(front, x, id);
        NewestAppend(Collapsed(front), x, id);
      }
    }
  }

  /** Once the queue is drained, the last value on the wire for every id is the newest one ever queued for it. */
  lemma {:induction false} DrainedQueueDeliveredNewest(lim: Limits, tr: Trace, id: string)
    requires Run(lim, tr).s.queue == []
    ensures Newest(Run(lim, tr).wire, id) == Newest(Run(lim, tr).history, id)
  {
    RunKeepsWire(lim, tr);
    var l := Run(lim, tr);
    assert l.history[..l.acked] == l.history;
    CollapseKeepsNewest(l.wire, id);
  }
}
