/**
  The durable outbox of alert events (internal/outbox/store.go) and of serviceability log events
  (internal/logstate/store.go): checkpoints per id, a queue keyed by sequence, and derived counters.
  The two stores run the same protocol; the log store, told by `Limits.logs`, also refuses
  details older than the checkpoint's marker and has a wider alphabet of ids.

  A SHA-256 content hash is a number standing for its 64 hex digits, the encoded size of a record is any
  number, and an RFC 3339 marker is its text with the instant it parses to, if it does.
 */
module Outbox {
  import opened Options

  /** A stored hash field: empty, the 64 lower-case hex digits of a digest, or anything else. */
  datatype Hash = NoHash | Sha256(digest: nat) | Malformed(text: string)

  datatype Marker = Marker(text: string, at: Option<int>)

  const NO_MARKER: Marker := Marker("", None)

  /** `payloadOk`: the payload decodes canonically and its id, content hash and record key match the record. */
  datatype Record = Record(sequence: nat, id: string, hash: Hash, payloadOk: bool, createdAt: int, size: nat)

  datatype Checkpoint = Checkpoint(
    id: string, marker: Marker, pendingHash: Hash, deliveredHash: Hash,
    lastFetchedAt: int, lastSeenAt: int, absentSince: int)

  datatype Limits = Limits(maxBytes: nat, maxEvents: nat, maxCheckpoints: nat, retention: int, logs: bool)

  /** The three buckets; `lastSequence` is the bucket sequence behind `NextSequence`. */
  datatype State = State(
    queue: seq<Record>, checkpoints: map<string, Checkpoint>, count: nat, bytes: nat, lastSequence: nat)

  const EMPTY: State := State([], map[], 0, 0, 0)

  /** What `BuildEvent` hands to `Enqueue`. */
  datatype Event = Event(id: string, hash: Hash, payloadOk: bool)

  datatype Status = Inserted | Repeat | Stale | Full | Corrupt | Done | Unavailable

  // ---------------------------------------------------------------- identities

  predicate AlertIdChar(c: char) {
    'a' <= c <= 'z' || 'A' <= c <= 'Z' || '0' <= c <= '9' || c == '.' || c == '_' || c == ':' || c == '-'
  }

  predicate PlainId(id: string) {
    1 <= |id| <= 256 && id != "." && id != ".."
  }

  predicate ValidAlertId(id: string) {
    PlainId(id) && forall i :: 0 <= i < |id| ==> AlertIdChar(id[i])
  }

  predicate ValidLogId(id: string) {
    PlainId(id) && forall i :: 0 <= i < |id| ==> id[i] != '\0'
  }

  predicate ValidId(lim: Limits, id: string) {
    if lim.logs then ValidLogId(id) else ValidAlertId(id)
  }

  predicate ValidEvent(lim: Limits, ev: Event) {
    ValidId(lim, ev.id) && ev.hash.Sha256? && ev.payloadOk
  }

  /** `validateStoredRecord`. */
  predicate RecordOk(lim: Limits, r: Record) {
    r.sequence > 0 && r.createdAt > 0 && ValidId(lim, r.id) && r.hash.Sha256? && r.payloadOk
  }

  // ---------------------------------------------------------------- queue views

  /** The content hashes queued for an id, oldest first. */
  function Hashes(q: seq<Record>, id: string): seq<Hash> {
    if q == [] then []
    else if q[|q| - 1].id == id then Hashes(q[..|q| - 1], id) + [q[|q| - 1].hash]
    else Hashes(q[..|q| - 1], id)
  }

  function Last(xs: seq<Hash>): Hash {
    if xs == [] then NoHash else xs[|xs| - 1]
  }

  /** The hash of the newest queued record of an id, empty if there is none. */
  function Newest(q: seq<Record>, id: string): Hash {
    Last(Hashes(q, id))
  }

  function Bytes(q: seq<Record>): nat {
    if q == [] then 0 else Bytes(q[..|q| - 1]) + q[|q| - 1].size
  }

  /** The position of a sequence number in the queue, or the queue's length. */
  function Position(q: seq<Record>, sequence: nat): (i: nat)
    ensures i <= |q| && (i < |q| ==> q[i].sequence == sequence)
  {
    if q == [] then 0
    else if q[0].sequence == sequence then 0
    else 1 + Position(q[1..], sequence)
  }

  // ---------------------------------------------------------------- transactions

  /** `olderMarker`: both parse and the incoming one is strictly earlier. */
  predicate Older(incoming: Marker, previous: Marker) {
    incoming.at.Some? && previous.at.Some? && incoming.at.value < previous.at.value
  }

  function CheckpointOf(s: State, id: string): Checkpoint {
    if id in s.checkpoints then s.checkpoints[id] else Checkpoint(id, NO_MARKER, NoHash, NoHash, 0, 0, 0)
  }

  predicate NoRoomFor(s: State, lim: Limits, id: string) {
    id !in s.checkpoints && |s.checkpoints| >= lim.maxCheckpoints
  }

  predicate SameContent(cp: Checkpoint, hash: Hash) {
    cp.pendingHash == hash || (cp.pendingHash == NoHash && cp.deliveredHash == hash)
  }

  function Fetched(cp: Checkpoint, marker: Marker, at: int): Checkpoint {
    cp.(lastSeenAt := at, lastFetchedAt := at, marker := marker, absentSince := 0)
  }

  function NextRecord(s: State, ev: Event, at: int, size: nat): Record {
    Record(s.lastSequence + 1, ev.id, ev.hash, ev.payloadOk, at, size)
  }

  /** Queueing a record and noting its hash as the pending one of its id. */
  function Insert(s: State, r: Record, cp: Checkpoint): State {
    State(s.queue + [r], s.checkpoints[r.id := cp.(pendingHash := r.hash)], s.count + 1, s.bytes + r.size, r.sequence)
  }

  /** `Enqueue`. A full store rolls back, so neither the sequence nor the checkpoint moves. */
  function Enqueue(s: State, lim: Limits, ev: Event, marker: Marker, at: int, size: nat): (State, Status) {
    if NoRoomFor(s, lim, ev.id) then (s, Full)
    else if lim.logs && Older(marker, CheckpointOf(s, ev.id).marker) then (s, Stale)
    else
      var cp := Fetched(CheckpointOf(s, ev.id), marker, at);
      if SameContent(cp, ev.hash) then (s.(checkpoints := s.checkpoints[ev.id := cp]), Repeat)
      else if s.count >= lim.maxEvents || s.bytes + size > lim.maxBytes then (s, Full)
      else (Insert(s, NextRecord(s, ev, at, size), cp), Inserted)
  }

  function MarkSeen(s: State, lim: Limits, id: string, marker: Marker, at: int): (State, Status) {
    if NoRoomFor(s, lim, id) then (s, Full)
    else
      var cp := CheckpointOf(s, id);
      var kept := if lim.logs && Older(marker, cp.marker) then cp.marker else marker;
      (s.(checkpoints := s.checkpoints[id := cp.(marker := kept, lastSeenAt := at, absentSince := 0)]), Done)
  }

  function Without(q: seq<Record>, i: nat): seq<Record>
    requires i < |q|
  {
    q[..i] + q[i + 1..]
  }

  /** Whether the record at position `i` is the newest queued one of its id. */
  predicate NewestOfItsId(q: seq<Record>, i: nat)
    requires i < |q|
  {
    forall j :: i < j < |q| ==> q[j].id != q[i].id
  }

  /** The checkpoint after its record at position `i` is acknowledged. */
  function Delivered(cp: Checkpoint, q: seq<Record>, i: nat): Checkpoint
    requires i < |q|
  {
    cp.(deliveredHash := q[i].hash, pendingHash := if NewestOfItsId(q, i) then NoHash else cp.pendingHash)
  }

  function Remove(s: State, i: nat, cp: Checkpoint): State
    requires i < |s.queue|
  {
    var r := s.queue[i];
    s.(queue := Without(s.queue, i), checkpoints := s.checkpoints[r.id := cp],
       count := if s.count > 0 then s.count - 1 else 0,
       bytes := if r.size > s.bytes then 0 else s.bytes - r.size)
  }

  /**
    `Acknowledge`: an unknown sequence is a no-op; a bad record or a checkpoint that disagrees with the queue is
    corruption.
   */
  function Acknowledge(lim: Limits, s: State, sequence: nat): (State, Status) {
    var i := Position(s.queue, sequence);
    if i == |s.queue| then (s, Done)
    else
      var id := s.queue[i].id;
      if !RecordOk(lim, s.queue[i]) || id !in s.checkpoints || s.checkpoints[id].pendingHash != Newest(s.queue, id)
          then (s, Corrupt)
      else (Remove(s, i, Delivered(s.checkpoints[id], s.queue, i)), Done)
  }

  /** The absence mark `ReconcileListed` leaves on a checkpoint; listed ids keep whatever they had. */
  function Marked(cp: Checkpoint, listed: set<string>, now: int): Checkpoint {
    if cp.id !in listed && cp.absentSince == 0 then cp.(absentSince := now) else cp
  }

  predicate Evictable(cp: Checkpoint, lim: Limits, listed: set<string>, now: int) {
    cp.id !in listed && now - Marked(cp, listed, now).absentSince >= lim.retention && cp.pendingHash == NoHash
  }

  function Reconcile(s: State, lim: Limits, listed: set<string>, now: int, complete: bool): (State, Status) {
    if !complete then (s, Done)
    else
      var kept := map id | id in s.checkpoints && !Evictable(s.checkpoints[id], lim, listed, now)
                        :: Marked(s.checkpoints[id], listed, now);
      (s.(checkpoints := kept), if |kept| >= lim.maxCheckpoints then Full else Done)
  }

  /**
    The status `ReconcileListed` returns when `left` checkpoints are left: the alert store counts them, the log store
    asks the bucket statistics, whose key count `keyN` may still include what this transaction deleted.
   */
  function ReconcileStatus(lim: Limits, left: nat, keyN: nat): Status {
    if (if lim.logs then keyN else left) >= lim.maxCheckpoints then Full else Done
  }
}
