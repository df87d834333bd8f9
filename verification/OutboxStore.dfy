/**
  The outbox as the object the pipelines share, and the publisher that drains it
  (internal/outbox/store.go, internal/logstate/store.go, internal/kafka/producer.go,
  internal/logpublisher/publisher.go).
 */
module OutboxStore {
  import opened Options
  import opened Runs
  import Outbox
  import opened OutboxRuns

  type Record = Outbox.Record
  type Checkpoint = Outbox.Checkpoint
  type State = Outbox.State
  type Status = Outbox.Status
  type Event = Outbox.Event
  type Marker = Outbox.Marker

  class Store {
    const lim: Outbox.Limits
    var queue: seq<Record>
    var checkpoints: map<string, Checkpoint>
    var count: nat
    var bytes: nat
    var lastSequence: nat

    ghost function View(): State
      reads this
    {
      Outbox.State(queue, checkpoints, count, bytes, lastSequence)
    }

    /** The queue bucket is keyed by sequence and the sequence counter is ahead of every key. */
    ghost predicate Valid()
      reads this
    {
      Ordered(queue, lastSequence)
    }

    constructor (lim: Outbox.Limits)
      ensures Valid() && View() == Outbox.EMPTY && this.lim == lim
    {
      this.lim := lim;
      queue, checkpoints, count, bytes, lastSequence := [], map[], 0, 0, 0;
    }

    method Enqueue(ev: Event, marker: Marker, at: int) returns (status: Status, size: nat)
      requires Valid()
      modifies this
      ensures Valid() && (View(), status) == Outbox.Enqueue(old(View()), lim, ev, marker, at, size)
    {
      size :| size >= 0;
      var cp: Checkpoint;
      if ev.id in checkpoints {
        cp := checkpoints[ev.id];
      } else {
        if |checkpoints| >= lim.maxCheckpoints {
          return Outbox.Full, size;
        }
        cp := Outbox.Checkpoint(ev.id, Outbox.NO_MARKER, Outbox.NoHash, Outbox.NoHash, 0, 0, 0);
      }
      if lim.logs && Outbox.Older(marker, cp.marker) {
        return Outbox.Stale, size;
      }
      cp := cp.(lastSeenAt := at, lastFetchedAt := at, marker := marker, absentSince := 0);
      if cp.pendingHash == ev.hash || (cp.pendingHash == Outbox.NoHash && cp.deliveredHash == ev.hash) {
        checkpoints := checkpoints[ev.id := cp];
        return Outbox.Repeat, size;
      }
      var sequence := lastSequence + 1;
      if count >= lim.maxEvents || bytes + size > lim.maxBytes {
        return Outbox.Full, size;
      }
      queue := queue + [Outbox.Record(sequence, ev.id, ev.hash, ev.payloadOk, at, size)];
      checkpoints := checkpoints[ev.id := cp.(pendingHash := ev.hash)];
      count, bytes, lastSequence := count + 1, bytes + size, sequence;
      status := Outbox.Inserted;
    }

    method MarkSeen(id: string, marker: Marker, at: int) returns (status: Status)
      requires Valid()
      modifies this
      ensures Valid() && (View(), status) == Outbox.MarkSeen(old(View()), lim, id, marker, at)
    {
      var cp: Checkpoint;
      if id in checkpoints {
        cp := checkpoints[id];
      } else {
        if |checkpoints| >= lim.maxCheckpoints {
          return Outbox.Full;
        }
        cp := Outbox.Checkpoint(id, Outbox.NO_MARKER, Outbox.NoHash, Outbox.NoHash, 0, 0, 0);
      }
      if !(lim.logs && Outbox.Older(marker, cp.marker)) {
        cp := cp.(marker := marker);
      }
      checkpoints := checkpoints[id := cp.(lastSeenAt := at, absentSince := 0)];
      status := Outbox.Done;
    }

    /** The first `limit` records in queue order; the log store refuses a limit below one. */
    method Records(limit: int) returns (rs: Option<seq<Record>>)
      requires lim.logs || limit >= 0
      ensures rs.None? <==> lim.logs && limit < 1
      ensures rs.Some? ==> rs.value == queue[..if limit < |queue| then limit else |queue|]
    {
      if lim.logs && limit < 1 {
        return None;
      }
      var result := [];
      while |result| < |queue| && |result| < limit
        invariant |result| <= limit && |result| <= |queue| && result == queue[..|result|]
      {
        result := result + [queue[|result|]];
      }
      rs := Some(result);
    }

    /** The cursor walk of `Acknowledge`: the newest queued hash of an id and whether `sequence` is that record. */
    method NewestPending(id: string, i: nat) returns (hash: Outbox.Hash, isNewest: bool)
      requires Valid() && i < |queue| && queue[i].id == id
      ensures hash == Outbox.Newest(queue, id) && isNewest == Outbox.NewestOfItsId(queue, i)
    {
      hash := Outbox.NoHash;
      var newestSequence := 0;
      ghost var last := -1;
      for k := 0 to |queue|
        invariant hash == Outbox.Newest(queue[..k], id)
        invariant -1 <= last < k && (last >= 0 ==> queue[last].id == id && newestSequence == queue[last].sequence)
        invariant forall j :: last < j < k ==> queue[j].id != id
      {
        assert queue[..k + 1] == queue[..k] + [queue[k]];
        HashesAppend(queue[..k], queue[k], id);
        if queue[k].id == id {
          hash, newestSequence, last := queue[k].hash, queue[k].sequence, k;
        }
      }
      assert queue[..|queue|] == queue;
      isNewest := queue[i].sequence == newestSequence;
    }

    method Acknowledge(sequence: nat) returns (status: Status)
      requires Valid()
      modifies this
      ensures Valid() && (View(), status) == Outbox.Acknowledge(lim, old(View()), sequence)
    {
      var i := Outbox.Position(queue, sequence);
      if i == |queue| {
        return Outbox.Done;
      }
      var record := queue[i];
      if !Outbox.RecordOk(lim, record) || record.id !in checkpoints {
        return Outbox.Corrupt;
      }
      var cp := checkpoints[record.id];
      var newest, isNewest := NewestPending(record.id, i);
      if cp.pendingHash != newest {
        return Outbox.Corrupt;
      }
      cp := cp.(deliveredHash := record.hash);
      if isNewest {
        cp := cp.(pendingHash := Outbox.NoHash);
      }
      RemoveKeepsOrder(queue, i, lastSequence);
      checkpoints := checkpoints[record.id := cp];
      queue := queue[..i] + queue[i + 1..];
      count := if count > 0 then count - 1 else 0;
      bytes := if record.size > bytes then 0 else bytes - record.size;
      status := Outbox.Done;
    }

    /** The cursor pass of `ReconcileListed`: marks absences and collects the evictable keys. */
    method MarkAbsent(listed: set<string>, now: int) returns (marked: map<string, Checkpoint>, doomed: set<string>)
      requires forall id :: id in checkpoints ==> checkpoints[id].id == id
      ensures marked.Keys == checkpoints.Keys
      ensures forall id :: id in checkpoints ==> marked[id] == Outbox.Marked(checkpoints[id], listed, now)
      ensures doomed <= checkpoints.Keys
      ensures forall id :: id in checkpoints ==> (id in doomed <==> Outbox.Evictable(checkpoints[id], lim, listed, now))
    {
      marked, doomed := checkpoints, {};
      var todo := checkpoints.Keys;
      while todo != {}
        invariant todo <= checkpoints.Keys == marked.Keys && doomed <= checkpoints.Keys - todo
        invariant forall id :: id in todo ==> marked[id] == checkpoints[id]
        invariant forall id :: id in checkpoints && id !in todo ==>
          && marked[id] == Outbox.Marked(checkpoints[id], listed, now)
          && (id in doomed <==> Outbox.Evictable(checkpoints[id], lim, listed, now))
        decreases todo
      {
        var id :| id in todo;
        todo := todo - {id};
        var cp := marked[id];
        if cp.id !in listed {
          if cp.absentSince == 0 {
            cp := cp.(absentSince := now);
            marked := marked[cp.id := cp];
          }
          if now - cp.absentSince >= lim.retention && cp.pendingHash == Outbox.NoHash {
            doomed := doomed + {id};
          }
        }
      }
    }

    /**
      `ReconcileListed`: an incomplete list changes nothing; otherwise mark, then delete what is evictable. `keyN` is
      the key count that the bucket statistics report after the deletes.
     */
    method ReconcileListed(listed: set<string>, now: int, complete: bool, keyN: nat) returns (status: Status)
      requires Valid() && forall id :: id in checkpoints ==> checkpoints[id].id == id
      modifies this
      ensures Valid() && View() == Outbox.Reconcile(old(View()), lim, listed, now, complete).0
      ensures status == if complete then Outbox.ReconcileStatus(lim, |checkpoints|, keyN) else Outbox.Done
    {
      if !complete {
        return Outbox.Done;
      }
      var marked, doomed := MarkAbsent(listed, now);
      var total := |marked|;
      KeptIsReconciled(View(), lim, listed, now, marked, doomed);
      checkpoints := marked - doomed;
      var counted := if lim.logs then keyN else total - |doomed|;
      status := if counted >= lim.maxCheckpoints then Outbox.Full else Outbox.Done;
    }
  }

  /** Deleting the evictable ids from the marked checkpoints is what `Reconcile` says, and how many go and stay. */
  lemma KeptIsReconciled(s: State, lim: Outbox.Limits, listed: set<string>, now: int,
                         marked: map<string, Checkpoint>, doomed: set<string>)
    requires marked.Keys == s.checkpoints.Keys && doomed <= s.checkpoints.Keys
    requires forall id :: id in s.checkpoints ==> marked[id] == Outbox.Marked(s.checkpoints[id], listed, now)
    requires forall id :: id in s.checkpoints ==>
              (id in doomed <==> Outbox.Evictable(s.checkpoints[id], lim, listed, now))
    ensures s.(checkpoints := marked - doomed) == Outbox.Reconcile(s, lim, listed, now, true).0
    ensures |marked| == |s.checkpoints| && |marked - doomed| == |marked| - |doomed|
  {
    assert marked - doomed == Outbox.Reconcile(s, lim, listed, now, true).0.checkpoints;
    KeptCount(marked.Keys, doomed);
    assert (marked - doomed).Keys == marked.Keys - doomed;
    assert |marked| == |marked.Keys| && |s.checkpoints| == |s.checkpoints.Keys|;
    assert |marked - doomed| == |(marked - doomed).Keys|;
  }

  lemma KeptCount(all: set<string>, doomed: set<string>)
    requires doomed <= all
    ensures |all - doomed| == |all| - |doomed|
  {
  }

  /** What is left of a snapshot stays at the front of the queue when the head goes and others append. */
  lemma RestIsNext(records: seq<Record>, i: nat, queue: seq<Record>, queue': seq<Record>)
    requires i < |records| && records[i..] <= queue && queue[1..] <= queue'
    ensures records[i + 1..] <= queue'
  {
    assert records[i + 1..] == records[i..][1..];
  }

  lemma HeadOfRest(snapshot: seq<Record>, records: seq<Record>, i: nat, queue: seq<Record>)
    requires i < |records| && records <= snapshot && snapshot[i..] <= queue
    ensures queue != [] && queue[0] == records[i]
  {
    assert snapshot[i..][0] == snapshot[i] == records[i];
  }

  /** How a flush ended: everything sent, stopped at a failed publish, or stopped by the store. */
  datatype FlushResult = Flushed | PublishFailed | StoreFailed

  /** Whether recovery is required after a flush. */
  predicate Recovery(r: FlushResult, before: bool) {
    r == StoreFailed || (r == PublishFailed && before)
  }

  datatype PublishResult = Confirmed | Lost | Uncertain

  const BATCH: nat := 100

  /**
    The publisher of one outbox, which other goroutines keep filling while it drains. The ghost `line` is the
    state of the run `trace` so far.
   */
  class Publisher {
    const store: Store
    var recoveryRequired: bool
    ghost var trace: Trace
    ghost var line: Line

    ghost predicate Valid()
      reads this, store
    {
      store.Valid() && line == Run(store.lim, trace) && line.s == store.View()
    }

    constructor (store: Store, ghost earlier: Trace)
      requires store.Valid() && Run(store.lim, earlier).s == store.View()
      ensures Valid() && this.store == store && trace == earlier && !recoveryRequired
    {
      this.store, recoveryRequired := store, false;
      trace, line := earlier, Run(store.lim, earlier);
    }

    ghost method Happen(a: Action)
      requires store.Valid() && line == Run(store.lim, trace) && Step(store.lim, line, a).s == store.View()
      modifies this`trace, this`line
      ensures Valid() && trace == Then(old(trace), a) && line == Step(store.lim, old(line), a)
    {
      trace, line := Then(trace, a), Step(store.lim, line, a);
    }

    /** A collector enqueues an event. */
    method OtherEnqueue(ev: Event, marker: Marker, at: int)
      requires Valid() && Outbox.ValidEvent(store.lim, ev) && at > 0
      modifies this`trace, this`line, store
      ensures Valid() && Continues(old(trace), trace)
      ensures line.acked == old(line.acked) && line.wire == old(line.wire)
      ensures old(store.queue) <= store.queue
    {
      var _, size := store.Enqueue(ev, marker, at);
      EnqueueReachesStore(line, store.lim, Enqueueing(ev, marker, at, size));
      Happen(Enqueueing(ev, marker, at, size));
    }

    /** Whatever a collector does in one transaction: nothing here may acknowledge. */
    method OtherTransaction()
      requires Valid()
      modifies this`trace, this`line, store
      ensures Valid() && Continues(old(trace), trace)
      ensures line.acked == old(line.acked) && line.wire == old(line.wire)
      ensures old(store.queue) <= store.queue
    {
      var choice: nat, at: int, id: string, marker: Marker := *, *, *, *;
      if choice == 0 {
        var ev: Event := *;
        if Outbox.ValidEvent(store.lim, ev) && at > 0 {
          OtherEnqueue(ev, marker, at);
        }
      } else if choice == 1 && Outbox.ValidId(store.lim, id) && at > 0 {
        var _ := store.MarkSeen(id, marker, at);
        Happen(Seeing(id, marker, at));
      } else if choice == 2 && at > 0 {
        var listed: set<string>, complete: bool := *, *;
        var keyN: nat :| keyN >= 0;
        RunKeepsStore(store.lim, trace);
        var _ := store.ReconcileListed(listed, at, complete, keyN);
        Happen(Reconciling(listed, at, complete));
      }
    }

    method OtherTransactions()
      requires Valid()
      modifies this`trace, this`line, store
      ensures Valid() && Continues(old(trace), trace)
      ensures line.acked == old(line.acked) && line.wire == old(line.wire)
      ensures old(store.queue) <= store.queue
    {
      var n: nat := *;
      while n > 0
        invariant Valid() && Continues(old(trace), trace)
        invariant line.acked == old(line.acked) && line.wire == old(line.wire)
        invariant old(store.queue) <= store.queue
      {
        ghost var before := trace;
        OtherTransaction();
        ContinuesTransitive(old(trace), before, trace);
        n := n - 1;
      }
    }

    /** `producer.Publish` of the queue head: confirmed, lost, or an error after it may have arrived. */
    method Publish(record: Record) returns (r: PublishResult)
      requires Valid() && store.queue != [] && record == store.queue[0]
      modifies this`trace, this`line
      ensures Valid() && Continues(old(trace), trace) && line.acked == old(line.acked)
      ensures r == Confirmed ==> line.wire != [] && line.wire[|line.wire| - 1] == record
    {
      var arrived: bool;
      r, arrived := *, *;
      if r == Confirmed {
        arrived := true;
      } else if r == Lost {
        arrived := false;
      }
      Happen(Publishing(arrived));
    }

    /**
      The acknowledgement after a confirmed publish: unless the database is unavailable it takes the head off the
      queue.
     */
    method AckHead(record: Record) returns (status: Status)
      requires Valid() && store.queue != [] && record == store.queue[0]
      requires line.wire != [] && line.wire[|line.wire| - 1] == record
      modifies this`trace, this`line, store
      ensures Valid() && Continues(old(trace), trace)
      ensures status == Outbox.Done || (status == Outbox.Unavailable && trace == old(trace))
      ensures status == Outbox.Done ==> line.acked == old(line.acked) + 1 && store.queue == old(store.queue)[1..]
    {
      var unavailable: bool := *;
      if unavailable {
        return Outbox.Unavailable;
      }
      HeadAcksCleanly(store.lim, trace);
      assert Outbox.Without(store.queue, 0) == store.queue[1..];
      status := store.Acknowledge(record.sequence);
      Happen(Acking);
    }

    /** One record of the batch: publish it, then acknowledge it, while other transactions go on. */
    method Deliver(record: Record) returns (r: PublishResult, status: Status)
      requires Valid() && store.queue != [] && record == store.queue[0]
      modifies this`trace, this`line, store
      ensures Valid() && Continues(old(trace), trace)
      ensures if r == Confirmed && status == Outbox.Done
              then line.acked == old(line.acked) + 1 && old(store.queue)[1..] <= store.queue
              else line.acked == old(line.acked) && old(store.queue) <= store.queue
    {
      status := Outbox.Unavailable;
      OtherTransactions();
      ghost var t1 := trace;
      r := Publish(record);
      ContinuesTransitive(old(trace), t1, trace);
      ghost var t2 := trace;
      OtherTransactions();
      ContinuesTransitive(old(trace), t2, trace);
      if r == Confirmed {
        ghost var t3 := trace;
        status := AckHead(record);
        ContinuesTransitive(old(trace), t3, trace);
      }
    }

    /**
      `flush`: publishes a snapshot of the queue in order, acknowledging each record after its publish, and stops
      at the first failure. Other transactions run between any two steps. It never finds the store corrupt. What it
      acknowledges is a prefix of the snapshot, all of it when it succeeds. A store that fails a read or an
      acknowledgement makes recovery required; a failed publish leaves that as it was, and success takes it back.
     */
    method Flush() returns (r: FlushResult)
      requires Valid()
      modifies this, store
      ensures Valid() && Continues(old(trace), trace)
      ensures
        var n, m := line.acked - old(line.acked), if BATCH < |old(store.queue)| then BATCH else |old(store.queue)|;
        0 <= n <= m && (r == Flushed ==> n == m) && (r == PublishFailed ==> n < m)
            && old(store.queue)[n..] <= store.queue
      ensures recoveryRequired == Recovery(r, old(recoveryRequired))
    {
      var readable: bool := *;
      if !readable {
        recoveryRequired := true;
        return StoreFailed;
      }
      var snapshot := store.Records(BATCH);
      var records := snapshot.value;
      if records == [] {
        var healthy := Healthy();
        recoveryRequired := !healthy;
        return if healthy then Flushed else StoreFailed;
      }
      r := DeliverAll(records);
    }

    /** One turn of the loop: `Flushed` means go on. */
    method DeliverNext(record: Record) returns (r: FlushResult)
      requires Valid() && store.queue != [] && record == store.queue[0]
      modifies this, store
      ensures Valid() && Continues(old(trace), trace)
      ensures
        var n := line.acked - old(line.acked);
        0 <= n <= 1 && (r == Flushed ==> n == 1) && (r == PublishFailed ==> n == 0)
            && old(store.queue)[n..] <= store.queue
      ensures recoveryRequired == (r == StoreFailed || old(recoveryRequired))
    {
      var published, status := Deliver(record);
      var healthy := Healthy();
      if !healthy || (published == Confirmed && status != Outbox.Done) {
        recoveryRequired := true;
        return StoreFailed;
      }
      r := if published == Confirmed then Flushed else PublishFailed;
    }

    method DeliverAll(records: seq<Record>) returns (r: FlushResult)
      requires Valid() && records != [] && records <= store.queue
      modifies this, store
      ensures Valid() && Continues(old(trace), trace)
      ensures
        var n := line.acked - old(line.acked);
        && 0 <= n <= |records| && (r == Flushed ==> n == |records|) && (r == PublishFailed ==> n < |records|)
        && old(store.queue)[n..] <= store.queue
      ensures recoveryRequired == Recovery(r, old(recoveryRequired))
    {
      ghost var snapshot, start := store.queue, trace;
      r := Flushed;
      var i := 0;
      ghost var n := 0;
      while r == Flushed && i < |records|
        invariant Valid() && Continues(start, trace) && i <= |records| && line.acked == old(line.acked) + n
        invariant 0 <= n <= |records| && (r == Flushed ==> n == i) && (r == PublishFailed ==> n < |records|)
        invariant snapshot[n..] <= store.queue
        invariant recoveryRequired == (r == StoreFailed || old(recoveryRequired))
        decreases |records| - i, r == Flushed
      {
        ghost var before, queue := trace, store.queue;
        HeadOfRest(snapshot, records, i, queue);
        r := DeliverNext(records[i]);
        ContinuesTransitive(start, before, trace);
        n := line.acked - old(line.acked);
        if n > i {
          RestIsNext(snapshot, i, queue, store.queue);
        } else {
          assert snapshot[i..] <= store.queue;
        }
        if r == Flushed {
          i := i + 1;
        }
      }
      if r == Flushed {
        recoveryRequired := false;
      }
    }

    /** Reading the store's health may fail. */
    method Healthy() returns (ok: bool) {
      ok := *;
    }
  }
}
