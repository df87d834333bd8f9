/**
  Every run of an outbox: the collector's `Enqueue`, `MarkSeen` and `ReconcileListed`, the publisher's
  deliveries and in-order acknowledgements, and restarts, in any interleaving.
 */
module OutboxRuns {
  import opened Runs
  import opened Sets
  import opened Outbox

  /**
    The store and what an observer knows. Per checkpoint lifetime: `observed`, the hashes of the `Enqueue`
    calls that were accepted; `shipped`, the hashes acknowledged; `marks`, the markers submitted. Over the
    whole run: `history`, every record ever queued; `acked`, how many of them are acknowledged; and `wire`,
    what reached Kafka.
   */
  datatype Line = Line(
    s: State,
    observed: map<string, seq<Hash>>, shipped: map<string, seq<Hash>>, marks: map<string, seq<Marker>>,
    history: seq<Record>, acked: nat, wire: seq<Record>)

  const FRESH: Line := Line(EMPTY, map[], map[], map[], [], 0, [])

  datatype Action =
    | Enqueueing(ev: Event, marker: Marker, at: int, size: nat)
    | Seeing(id: string, marker: Marker, at: int)
    | Reconciling(listed: set<string>, now: int, complete: bool)
    | Publishing(arrived: bool)
    | Acking
    | Reopening

  predicate Enabled(lim: Limits, l: Line, a: Action) {
    match a
    case Enqueueing(ev, _, at, _) => ValidEvent(lim, ev) && at > 0
    case Seeing(id, _, at) => ValidId(lim, id) && at > 0
    case Reconciling(_, now, _) => now > 0
    case Publishing(_) => l.s.queue != []
    case Acking => l.s.queue != [] && l.wire != [] && l.wire[|l.wire| - 1] == l.s.queue[0]
    case Reopening => true
  }

  function At<V>(m: map<string, seq<V>>, id: string): seq<V> {
    if id in m then m[id] else []
  }

  function Grown<V>(m: map<string, seq<V>>, id: string, more: seq<V>): map<string, seq<V>> {
    m[id := At(m, id) + more]
  }

  function Kept<V>(m: map<string, V>, ids: set<string>): map<string, V> {
    map id | id in m && id in ids :: m[id]
  }

  function AfterEnqueue(l: Line, lim: Limits, a: Action): Line
    requires a.Enqueueing?
  {
    var (s', status) := Enqueue(l.s, lim, a.ev, a.marker, a.at, a.size);
    if status == Full then l
    else if status == Stale then l.(marks := Grown(l.marks, a.ev.id, [a.marker]))
    else
      var l' := l.(s := s', observed := Grown(l.observed, a.ev.id, [a.ev.hash]),
                   shipped := Grown(l.shipped, a.ev.id, []), marks := Grown(l.marks, a.ev.id, [a.marker]));
      if status == Repeat then l'
      else l'.(history := l.history + [s'.queue[|s'.queue| - 1]])
  }

  function AfterAck(lim: Limits, l: Line): Line
    requires l.s.queue != []
  {
    var r := l.s.queue[0];
    l.(s := Acknowledge(lim, l.s, r.sequence).0, shipped := Grown(l.shipped, r.id, [r.hash]), acked := l.acked + 1)
  }

  function AfterReconcile(l: Line, lim: Limits, a: Action): Line
    requires a.Reconciling?
  {
    var s' := Reconcile(l.s, lim, a.listed, a.now, a.complete).0;
    l.(s := s', observed := Kept(l.observed, s'.checkpoints.Keys), shipped := Kept(l.shipped, s'.checkpoints.Keys),
       marks := Kept(l.marks, s'.checkpoints.Keys))
  }

  /** A restart recomputes the counters from the queue. */
  function Reopened(s: State): State {
    s.(count := |s.queue|, bytes := Bytes(s.queue))
  }

  function Step(lim: Limits, l: Line, a: Action): Line {
    if !Enabled(lim, l, a) then l
    else match a
      case Enqueueing(_, _, _, _) => AfterEnqueue(l, lim, a)
      case Seeing(id, marker, at) =>
        var (s', status) := MarkSeen(l.s, lim, id, marker, at);
        if status == Full then l
        else l.(s := s', observed := Grown(l.observed, id, []), shipped := Grown(l.shipped, id, []),
                marks := Grown(l.marks, id, [marker]))
      case Reconciling(_, _, _) => AfterReconcile(l, lim, a)
      case Publishing(arrived) => if arrived then l.(wire := l.wire + [l.s.queue[0]]) else l
      case Acking => AfterAck(lim, l)
      case Reopening => l.(s := Reopened(l.s))
  }

  type Trace = Past<Action>

  function Run(lim: Limits, tr: Trace): Line {
    match tr
    case Start => FRESH
    case Then(before, a) => Step(lim, Run(lim, before), a)
  }

  // ---------------------------------------------------------------- the store invariant

  predicate HashOk(h: Hash) {
    h != NoHash ==> h.Sha256?
  }

  predicate CheckpointOk(lim: Limits, id: string, cp: Checkpoint) {
    && cp.id == id && ValidId(lim, id) && HashOk(cp.pendingHash) && HashOk(cp.deliveredHash)
    && cp.lastFetchedAt >= 0 && cp.lastSeenAt >= 0 && cp.absentSince >= 0
  }

  /** Every queued record and every checkpoint is well-formed, and every record has its checkpoint. */
  ghost predicate Sound(lim: Limits, queue: seq<Record>, checkpoints: map<string, Checkpoint>) {
    && (forall i :: 0 <= i < |queue| ==> RecordOk(lim, queue[i]) && queue[i].id in checkpoints)
    && (forall id :: id in checkpoints ==> CheckpointOk(lim, id, checkpoints[id]))
  }

  /** Every checkpoint's pending hash is that of the newest queued record of its id. */
  ghost predicate Agrees(queue: seq<Record>, checkpoints: map<string, Checkpoint>) {
    forall id :: id in checkpoints ==> checkpoints[id].pendingHash == Newest(queue, id)
  }

  predicate Increasing(q: seq<Record>) {
    forall i, j :: 0 <= i < j < |q| ==> q[i].sequence < q[j].sequence
  }

  predicate Ordered(q: seq<Record>, last: nat) {
    Increasing(q) && forall i :: 0 <= i < |q| ==> q[i].sequence <= last
  }

  ghost predicate StoreInv(lim: Limits, s: State) {
    && Sound(lim, s.queue, s.checkpoints) && Agrees(s.queue, s.checkpoints) && Ordered(s.queue, s.lastSequence)
    && s.count == |s.queue| && s.bytes == Bytes(s.queue)
  }

  // ---------------------------------------------------------------- queue algebra

  lemma {:induction false} HashesConcat(a: seq<Record>, b: seq<Record>, id: string)
    ensures Hashes(a + b, id) == Hashes(a, id) + Hashes(b, id)
  {
    if b == [] {
      assert a + b == a;
    } else {
      var front := b[..|b| - 1];
      HashesConcat(a, front, id);
      assert (a + b)[..|a + b| - 1] == a + front;
    }
  }

  lemma {:induction false} BytesConcat(a: seq<Record>, b: seq<Record>)
    ensures Bytes(a + b) == Bytes(a) + Bytes(b)
  {
    if b == [] {
      assert a + b == a;
    } else {
      var front := b[..|b| - 1];
      BytesConcat(a, front);
      assert (a + b)[..|a + b| - 1] == a + front;
    }
  }

  lemma HashesAppend(q: seq<Record>, r: Record, id: string)
    ensures Hashes(q + [r], id) == if r.id == id then Hashes(q, id) + [r.hash] else Hashes(q, id)
    ensures Bytes(q + [r]) == Bytes(q) + r.size
  {
    assert (q + [r])[..|q|] == q;
  }

  lemma {:induction false} HashesEmpty(q: seq<Record>, id: string)
    ensures Hashes(q, id) == [] <==> forall i :: 0 <= i < |q| ==> q[i].id != id
  {
    if q != [] {
      HashesEmpty(q[..|q| - 1], id);
    }
  }

  lemma {:induction false} PositionIsUnique(q: seq<Record>, i: nat)
    requires Increasing(q) && i < |q|
    ensures Position(q, q[i].sequence) == i
  {
    if i > 0 {
      PositionIsUnique(q[1..], i - 1);
    }
  }

  /** Splitting a queue around position `i`. */
  lemma AroundPosition(q: seq<Record>, i: nat, id: string)
    requires i < |q|
    ensures Hashes(Without(q, i), id) == Hashes(q[..i], id) + Hashes(q[i + 1..], id)
    ensures q[i].id != id ==> Hashes(q, id) == Hashes(Without(q, i), id)
    ensures q[i].id == id ==> Hashes(q, id) == Hashes(q[..i], id) + [q[i].hash] + Hashes(q[i + 1..], id)
    ensures Bytes(q) == Bytes(Without(q, i)) + q[i].size
  {
    assert q == q[..i + 1] + q[i + 1..] && q[..i + 1] == q[..i] + [q[i]];
    HashesConcat(q[..i + 1], q[i + 1..], id);
    HashesAppend(q[..i], q[i], id);
    HashesConcat(q[..i], q[i + 1..], id);
    BytesConcat(q[..i + 1], q[i + 1..]);
    BytesConcat(q[..i], q[i + 1..]);
  }

  // ---------------------------------------------------------------- each transaction keeps the store invariant

  lemma AppendKeepsAgreement(q: seq<Record>, cps: map<string, Checkpoint>, r: Record, cp: Checkpoint)
    requires Agrees(q, cps) && cp.pendingHash == r.hash
    ensures Agrees(q + [r], cps[r.id := cp])
    ensures Bytes(q + [r]) == Bytes(q) + r.size
  {
    var cps' := cps[r.id := cp];
    forall id | id in cps'
      ensures cps'[id].pendingHash == Newest(q + [r], id)
    {
      HashesAppend(q, r, id);
    }
    HashesAppend(q, r, r.id);
  }

  /** The checkpoint an operation starts from is well-formed and agrees with the queue. */
  lemma CheckpointAgrees(lim: Limits, s: State, id: string)
    requires Sound(lim, s.queue, s.checkpoints) && Agrees(s.queue, s.checkpoints) && ValidId(lim, id)
    ensures CheckpointOk(lim, id, CheckpointOf(s, id)) && CheckpointOf(s, id).pendingHash == Newest(s.queue, id)
  {
    HashesEmpty(s.queue, id);
  }

  lemma AppendKeepsSound(lim: Limits, q: seq<Record>, cps: map<string, Checkpoint>, r: Record, cp: Checkpoint)
    requires Sound(lim, q, cps) && RecordOk(lim, r) && CheckpointOk(lim, r.id, cp)
    ensures Sound(lim, q + [r], cps[r.id := cp])
  {
  }

  lemma AppendKeepsOrder(q: seq<Record>, last: nat, r: Record)
    requires Ordered(q, last) && r.sequence == last + 1
    ensures Ordered(q + [r], r.sequence)
  {
  }

  lemma InsertKeepsStore(lim: Limits, s: State, r: Record, cp: Checkpoint)
    requires StoreInv(lim, s) && RecordOk(lim, r) && r.sequence == s.lastSequence + 1 && CheckpointOk(lim, r.id, cp)
    ensures StoreInv(lim, Insert(s, r, cp))
  {
    var cp' := cp.(pendingHash := r.hash);
    AppendKeepsAgreement(s.queue, s.checkpoints, r, cp');
    AppendKeepsSound(lim, s.queue, s.checkpoints, r, cp');
    AppendKeepsOrder(s.queue, s.lastSequence, r);
  }

  lemma PutKeepsStore(lim: Limits, s: State, id: string, cp: Checkpoint)
    requires StoreInv(lim, s) && CheckpointOk(lim, id, cp) && cp.pendingHash == Newest(s.queue, id)
    ensures StoreInv(lim, s.(checkpoints := s.checkpoints[id := cp]))
  {
  }

  lemma EnqueueKeepsStore(s: State, lim: Limits, ev: Event, marker: Marker, at: int, size: nat)
    requires StoreInv(lim, s) && ValidEvent(lim, ev) && at > 0
    ensures StoreInv(lim, Enqueue(s, lim, ev, marker, at, size).0)
  {
    CheckpointAgrees(lim, s, ev.id);
    var cp := Fetched(CheckpointOf(s, ev.id), marker, at);
    if SameContent(cp, ev.hash) {
      PutKeepsStore(lim, s, ev.id, cp);
    } else {
      InsertKeepsStore(lim, s, NextRecord(s, ev, at, size), cp);
    }
  }

  lemma MarkSeenKeepsStore(s: State, lim: Limits, id: string, marker: Marker, at: int)
    requires StoreInv(lim, s) && ValidId(lim, id) && at > 0
    ensures StoreInv(lim, MarkSeen(s, lim, id, marker, at).0)
  {
    CheckpointAgrees(lim, s, id);
    if !NoRoomFor(s, lim, id) {
      PutKeepsStore(lim, s, id, MarkSeen(s, lim, id, marker, at).0.checkpoints[id]);
    }
  }

  lemma ReconcileKeepsStore(s: State, lim: Limits, listed: set<string>, now: int, complete: bool)
    requires StoreInv(lim, s) && now > 0
    ensures StoreInv(lim, Reconcile(s, lim, listed, now, complete).0)
  {
    forall i | 0 <= i < |s.queue|
      ensures s.checkpoints[s.queue[i].id].pendingHash != NoHash
    {
      QueuedHasPending(lim, s.queue, i);
    }
  }

  /** A queued id has a non-empty newest hash. */
  lemma QueuedHasPending(lim: Limits, q: seq<Record>, i: nat)
    requires i < |q| && forall k :: 0 <= k < |q| ==> RecordOk(lim, q[k])
    ensures Newest(q, q[i].id) != NoHash
  {
    HashesEmpty(q, q[i].id);
    HashesAreValid(lim, q, q[i].id);
  }

  lemma {:induction false} HashesAreValid(lim: Limits, q: seq<Record>, id: string)
    requires forall k :: 0 <= k < |q| ==> RecordOk(lim, q[k])
    ensures forall k :: 0 <= k < |Hashes(q, id)| ==> Hashes(q, id)[k].Sha256?
  {
    if q != [] {
      HashesAreValid(lim, q[..|q| - 1], id);
    }
  }

  /** The publisher may acknowledge this record without breaking the checkpoint of its id. */
  predicate SafeToAck(q: seq<Record>, i: nat)
    requires i < |q|
  {
    !NewestOfItsId(q, i) || forall j :: 0 <= j < i ==> q[j].id != q[i].id
  }

  /**
    Exactly when an acknowledgement keeps the store consistent: unless it is the newest record of an id
    that still has older records queued. Acknowledging in queue order always qualifies.
   */
  lemma AckKeepsStoreExactlyWhenSafe(lim: Limits, s: State, i: nat)
    requires StoreInv(lim, s) && i < |s.queue|
    ensures Acknowledge(lim, s, s.queue[i].sequence).1 == Done
    ensures StoreInv(lim, Acknowledge(lim, s, s.queue[i].sequence).0) <==> SafeToAck(s.queue, i)
  {
    PositionIsUnique(s.queue, i);
    RemoveKeepsStoreExactlyWhenSafe(lim, s, i);
  }

  lemma RemoveKeepsStoreExactlyWhenSafe(lim: Limits, s: State, i: nat)
    requires StoreInv(lim, s) && i < |s.queue|
    ensures StoreInv(lim, Remove(s, i, Delivered(s.checkpoints[s.queue[i].id], s.queue, i))) <==> SafeToAck(s.queue, i)
  {
    var q, id := s.queue, s.queue[i].id;
    var cp := Delivered(s.checkpoints[id], q, i);
    AckedCheckpointAgrees(lim, q, i);
    AroundPosition(q, i, id);
    if SafeToAck(q, i) {
      RemoveKeepsAgreement(q, s.checkpoints, i, cp);
      RemoveKeepsOrder(q, i, s.lastSequence);
      RemoveKeepsSound(lim, q, s.checkpoints, i, cp);
    } else {
      assert !Agrees(Without(q, i), s.checkpoints[id := cp]) by {
        assert s.checkpoints[id := cp][id].pendingHash != Newest(Without(q, i), id);
      }
    }
  }

  lemma RemoveKeepsSound(lim: Limits, q: seq<Record>, cps: map<string, Checkpoint>, i: nat, cp: Checkpoint)
    requires Sound(lim, q, cps) && i < |q| && CheckpointOk(lim, q[i].id, cp)
    ensures Sound(lim, Without(q, i), cps[q[i].id := cp])
  {
    forall k | 0 <= k < |q| - 1
      ensures Without(q, i)[k] == q[if k < i then k else k + 1]
    {
    }
  }

  lemma RemoveKeepsOrder(q: seq<Record>, i: nat, last: nat)
    requires i < |q| && Ordered(q, last)
    ensures Ordered(Without(q, i), last)
  {
  }

  /** What `Acknowledge` leaves in the checkpoint is the newest remaining hash exactly when it is safe. */
  lemma AckedCheckpointAgrees(lim: Limits, q: seq<Record>, i: nat)
    requires i < |q| && forall k :: 0 <= k < |q| ==> RecordOk(lim, q[k])
    ensures
      var left := if NewestOfItsId(q, i) then NoHash else Newest(q, q[i].id);
      left == Newest(Without(q, i), q[i].id) <==> SafeToAck(q, i)
  {
    var id := q[i].id;
    AroundPosition(q, i, id);
    HashesEmpty(q[..i], id);
    HashesEmpty(q[i + 1..], id);
    HashesAreValid(lim, q[..i], id);
    assert NewestOfItsId(q, i) <==> Hashes(q[i + 1..], id) == [] by {
      assert forall j :: i < j < |q| ==> q[j] == q[i + 1..][j - i - 1];
    }
  }

  lemma RemoveKeepsAgreement(q: seq<Record>, cps: map<string, Checkpoint>, i: nat, cp: Checkpoint)
    requires Agrees(q, cps) && i < |q| && cp.pendingHash == Newest(Without(q, i), q[i].id)
    ensures Agrees(Without(q, i), cps[q[i].id := cp])
  {
    var q', cps' := Without(q, i), cps[q[i].id := cp];
    forall id | id in cps'
      ensures cps'[id].pendingHash == Newest(q', id)
    {
      AroundPosition(q, i, id);
    }
  }

  /**
    Such an acknowledgement is within reach: after any two different contents of one id are queued, acknowledging the
    newer record first empties the pending hash while the older record is still queued.
   */
  lemma {:induction false} NewestFirstBreaksStore(lim: Limits, first: Event, second: Event, marker: Marker, size: nat)
    returns (tr: Trace)
    requires ValidEvent(lim, first) && ValidEvent(lim, second) && first.id == second.id && first.hash != second.hash
    requires lim.maxCheckpoints > 0 && lim.maxEvents >= 2 && lim.maxBytes >= 2 * size
    ensures
      var s := Run(lim, tr).s;
      && |s.queue| == 2 && s.queue[1].sequence == 2 && !SafeToAck(s.queue, 1)
      && Acknowledge(lim, s, 2).1 == Done && !StoreInv(lim, Acknowledge(lim, s, 2).0)
  {
    var a1, a2 := Enqueueing(first, marker, 1, size), Enqueueing(second, marker, 2, size);
    var t0: Trace := Start;
    var t1 := Then(t0, a1);
    tr := Then(t1, a2);
    var l1 := AfterEnqueue(FRESH, lim, a1);
    assert Run(lim, t0) == FRESH && Run(lim, t1) == l1;
    EnqueueReachesStore(FRESH, lim, a1);
    EnqueueReachesStore(l1, lim, a2);
    TwoAreQueued(lim, first, second, marker, size);
    RunKeepsStore(lim, tr);
    AckKeepsStoreExactlyWhenSafe(lim, Run(lim, tr).s, 1);
  }

  lemma TwoAreQueued(lim: Limits, first: Event, second: Event, marker: Marker, size: nat)
    requires first.id == second.id && first.hash != second.hash && first.hash.Sha256? && second.hash.Sha256?
    requires lim.maxCheckpoints > 0 && lim.maxEvents >= 2 && lim.maxBytes >= 2 * size
    ensures
      var s := Enqueue(Enqueue(EMPTY, lim, first, marker, 1, size).0, lim, second, marker, 2, size).0;
      |s.queue| == 2 && s.queue[0].id == s.queue[1].id && s.queue[1].sequence == 2
  {
    var s1 := Insert(EMPTY, NextRecord(EMPTY, first, 1, size), Checkpoint(first.id, marker, NoHash, NoHash, 1, 1, 0));
    assert Enqueue(EMPTY, lim, first, marker, 1, size) == (s1, Inserted);
    assert Enqueue(s1, lim, second, marker, 2, size).1 == Inserted;
  }

  predicate HeadRemoved(lim: Limits, s: State)
    requires s.queue != []
  {
    && s.queue[0].id in s.checkpoints
    && Acknowledge(lim, s, s.queue[0].sequence) ==
         (Remove(s, 0, Delivered(s.checkpoints[s.queue[0].id], s.queue, 0)), Done)
  }

  /** The publisher's acknowledgement of the queue head never finds corruption and removes exactly that record. */
  lemma AckOfHead(lim: Limits, s: State)
    requires StoreInv(lim, s) && s.queue != []
    ensures HeadRemoved(lim, s)
  {
    PositionIsUnique(s.queue, 0);
  }

  lemma EnqueueReachesStore(l: Line, lim: Limits, a: Action)
    requires a.Enqueueing?
    ensures AfterEnqueue(l, lim, a).s == Enqueue(l.s, lim, a.ev, a.marker, a.at, a.size).0
    ensures Enqueue(l.s, lim, a.ev, a.marker, a.at, a.size).1 != Full ==>
              AfterEnqueue(l, lim, a).marks == Grown(l.marks, a.ev.id, [a.marker])
  {
  }

  lemma {:induction false} StepKeepsStore(lim: Limits, l: Line, a: Action)
    requires StoreInv(lim, l.s)
    ensures StoreInv(lim, Step(lim, l, a).s)
  {
    if Enabled(lim, l, a) {
      match a
      case Enqueueing(ev, marker, at, size) =>
        EnqueueKeepsStore(l.s, lim, ev, marker, at, size);
        EnqueueReachesStore(l, lim, a);
      case Seeing(id, marker, at) => MarkSeenKeepsStore(l.s, lim, id, marker, at);
      case Reconciling(listed, now, complete) => ReconcileKeepsStore(l.s, lim, listed, now, complete);
      case Publishing(_) =>
      case Acking => AckKeepsStoreExactlyWhenSafe(lim, l.s, 0);
      case Reopening =>
    }
  }

  /** The outbox invariant holds after every run. */
  lemma {:induction false} RunKeepsStore(lim: Limits, tr: Trace)
    ensures StoreInv(lim, Run(lim, tr).s)
  {
    if tr.Then? {
      RunKeepsStore(lim, tr.before);
      StepKeepsStore(lim, Run(lim, tr.before), tr.action);
    }
  }

  /** In every run, acknowledging the queue head succeeds and removes exactly the head. */
  lemma HeadAcksCleanly(lim: Limits, tr: Trace)
    requires Run(lim, tr).s.queue != []
    ensures HeadRemoved(lim, Run(lim, tr).s)
  {
    RunKeepsStore(lim, tr);
    AckOfHead(lim, Run(lim, tr).s);
  }

  // ---------------------------------------------------------------- limits

  predicate WithinLimits(s: State, lim: Limits) {
    s.count <= lim.maxEvents && s.bytes <= lim.maxBytes && |s.checkpoints| <= lim.maxCheckpoints
  }

  /** No run takes a store beyond its limits, counted in real records, real bytes and real checkpoints. */
  lemma {:induction false} RunStaysWithinLimits(lim: Limits, tr: Trace)
    ensures WithinLimits(Run(lim, tr).s, lim)
    ensures |Run(lim, tr).s.queue| <= lim.maxEvents && Bytes(Run(lim, tr).s.queue) <= lim.maxBytes
  {
    RunKeepsStore(lim, tr);
    if tr.Then? {
      RunStaysWithinLimits(lim, tr.before);
      RunKeepsStore(lim, tr.before);
      StepStaysWithinLimits(lim, Run(lim, tr.before), tr.action);
    }
  }

  lemma StepStaysWithinLimits(lim: Limits, l: Line, a: Action)
    requires l.s.count == |l.s.queue| && l.s.bytes == Bytes(l.s.queue) && WithinLimits(l.s, lim)
    ensures WithinLimits(Step(lim, l, a).s, lim)
  {
    if Enabled(lim, l, a) {
      match a
      case Enqueueing(ev, marker, at, size) => EnqueueStaysWithinLimits(l.s, lim, ev, marker, at, size);
      case Seeing(id, marker, at) => SeeingStaysWithinLimits(l.s, lim, id, marker, at);
      case Reconciling(listed, now, complete) =>
        var s' := Reconcile(l.s, lim, listed, now, complete).0;
        SubsetIsSmaller(s'.checkpoints.Keys, l.s.checkpoints.Keys);
      case Publishing(_) =>
      case Acking => AckStaysWithinLimits(l.s, lim, l.s.queue[0].sequence);
      case Reopening =>
    }
  }

  lemma SeeingStaysWithinLimits(s: State, lim: Limits, id: string, marker: Marker, at: int)
    requires WithinLimits(s, lim)
    ensures WithinLimits(MarkSeen(s, lim, id, marker, at).0, lim)
  {
    KeysAfterPut(s.checkpoints, MarkSeen(s, lim, id, marker, at).0.checkpoints, id);
  }

  lemma AckStaysWithinLimits(s: State, lim: Limits, sequence: nat)
    requires WithinLimits(s, lim)
    ensures WithinLimits(Acknowledge(lim, s, sequence).0, lim)
  {
    assert Acknowledge(lim, s, sequence).0.checkpoints.Keys == s.checkpoints.Keys;
  }

  lemma EnqueueStaysWithinLimits(s: State, lim: Limits, ev: Event, marker: Marker, at: int, size: nat)
    requires WithinLimits(s, lim)
    ensures WithinLimits(Enqueue(s, lim, ev, marker, at, size).0, lim)
  {
    EnqueueKeepsKeys(s, lim, ev, marker, at, size);
    KeysAfterPut(s.checkpoints, Enqueue(s, lim, ev, marker, at, size).0.checkpoints, ev.id);
  }

  lemma EnqueueKeepsKeys(s: State, lim: Limits, ev: Event, marker: Marker, at: int, size: nat)
    ensures
      var s' := Enqueue(s, lim, ev, marker, at, size).0;
      || s'.checkpoints.Keys == s.checkpoints.Keys
      || (s'.checkpoints.Keys == s.checkpoints.Keys + {ev.id} && !NoRoomFor(s, lim, ev.id))
  {
  }

  lemma KeysAfterPut(m: map<string, Checkpoint>, m': map<string, Checkpoint>, id: string)
    requires m'.Keys == m.Keys || m'.Keys == m.Keys + {id}
    ensures |m'| <= if id in m then |m| else |m| + 1
    ensures m'.Keys == m.Keys ==> |m'| == |m|
  {
    if id in m {
      assert m.Keys + {id} == m.Keys;
    }
  }
}
