/**
  The startup check of an outbox (`validateAndMigrate`, `validateRecords`, `validateCheckpoints`) over arbitrary
  stored contents: keys of any length, values that may not decode, may not be canonical, or may contradict
  each other.
 */
module OutboxValidator {
  import opened Options
  import opened Integers
  import opened Outbox
  import opened OutboxRuns


  /** What decoding a stored value yields; `canonical` when re-encoding gives the same bytes. */
  datatype Raw<T> = Garbage | Decoded(value: T, canonical: bool)

  /** One bucket entry: an 8-byte key is a big-endian sequence number. */
  datatype Entry = Entry(keyLength: nat, key: nat, size: nat, raw: Raw<Record>)

  /** The stored buckets as a cursor sees them, and the version key if present. */
  datatype Contents = Contents(version: Option<string>, entries: seq<Entry>, checkpoints: map<string, Raw<Checkpoint>>)

  datatype Report = Accepted(count: nat, bytes: nat) | Rejected

  predicate EntryOk(lim: Limits, e: Entry) {
    && e.keyLength == 8 && e.key != 0
    && e.raw.Decoded? && e.raw.canonical
    && e.raw.value.sequence == e.key && RecordOk(lim, e.raw.value)
  }

  predicate StoredCheckpointOk(lim: Limits, id: string, raw: Raw<Checkpoint>) {
    raw.Decoded? && raw.canonical && CheckpointOk(lim, id, raw.value)
  }

  function RecordOf(lim: Limits, e: Entry): Record
    requires EntryOk(lim, e)
  {
    e.raw.value.(size := e.size)
  }

  /** The records behind well-formed entries. */
  function Records(lim: Limits, entries: seq<Entry>): (rs: seq<Record>)
    requires forall i :: 0 <= i < |entries| ==> EntryOk(lim, entries[i])
    ensures |rs| == |entries|
    ensures forall i :: 0 <= i < |entries| ==> rs[i] == RecordOf(lim, entries[i])
  {
    seq(|entries|, i requires 0 <= i < |entries| => RecordOf(lim, entries[i]))
  }

  /** What a restart demands of the stored contents. */
  ghost predicate Acceptable(lim: Limits, c: Contents) {
    && c.version in {None, Some("1")}
    && (forall i :: 0 <= i < |c.entries| ==> EntryOk(lim, c.entries[i]))
    && Bytes(Records(lim, c.entries)) <= MAX_UINT64
    && (forall id :: id in c.checkpoints ==>
          StoredCheckpointOk(lim, id, c.checkpoints[id])
              && c.checkpoints[id].value.pendingHash == Newest(Records(lim, c.entries), id))
    && (forall i :: 0 <= i < |c.entries| ==> RecordOf(lim, c.entries[i]).id in c.checkpoints)
  }

  // ---------------------------------------------------------------- the loops

  /** `newestPending[id]`, empty for an id that is not in the map. */
  function Lookup(m: map<string, Hash>, id: string): Hash {
    if id in m then m[id] else NoHash
  }

  ghost predicate Tallied(lim: Limits, entries: seq<Entry>, i: nat, count: nat, bytes: nat,
                          newest: map<string, Hash>, ids: set<string>)
    requires i <= |entries|
  {
    && (forall k :: 0 <= k < i ==> EntryOk(lim, entries[k]))
    && var rs := Records(lim, entries[..i]);
       && count == i && bytes == Bytes(rs) <= MAX_UINT64
       && (forall id :: Lookup(newest, id) == Newest(rs, id))
       && (forall id :: id in ids <==> exists k :: 0 <= k < i && RecordOf(lim, entries[k]).id == id)
  }

  lemma RecordsAppend(lim: Limits, entries: seq<Entry>, i: nat)
    requires i < |entries| && forall k :: 0 <= k <= i ==> EntryOk(lim, entries[k])
    ensures Records(lim, entries[..i + 1]) == Records(lim, entries[..i]) + [RecordOf(lim, entries[i])]
    ensures Bytes(Records(lim, entries[..i + 1])) == Bytes(Records(lim, entries[..i])) + entries[i].size
  {
    HashesAppend(Records(lim, entries[..i]), RecordOf(lim, entries[i]), "");
  }

  lemma TallyStep(lim: Limits, entries: seq<Entry>, i: nat, bytes: nat, newest: map<string, Hash>, ids: set<string>)
    requires i < |entries| && Tallied(lim, entries, i, i, bytes, newest, ids)
    requires EntryOk(lim, entries[i]) && bytes + entries[i].size <= MAX_UINT64
    ensures
      var r := RecordOf(lim, entries[i]);
      Tallied(lim, entries, i + 1, i + 1, bytes + r.size, newest[r.id := r.hash], ids + {r.id})
  {
    RecordsAppend(lim, entries, i);
    var rs, r := Records(lim, entries[..i]), RecordOf(lim, entries[i]);
    forall id
      ensures Lookup(newest[r.id := r.hash], id) == Newest(rs + [r], id)
    {
      assert Lookup(newest, id) == Newest(rs, id);
      HashesAppend(rs, r, id);
    }
  }

  lemma BytesGrow(lim: Limits, entries: seq<Entry>, i: nat)
    requires i <= |entries| && forall k :: 0 <= k < |entries| ==> EntryOk(lim, entries[k])
    ensures Bytes(Records(lim, entries[..i])) <= Bytes(Records(lim, entries))
  {
    assert entries == entries[..i] + entries[i..];
    assert Records(lim, entries) == Records(lim, entries[..i]) + Records(lim, entries[i..]);
    BytesConcat(Records(lim, entries[..i]), Records(lim, entries[i..]));
  }

  /**
    `validateRecords`: stops at the first bad entry or byte overflow, otherwise tallies count, bytes and newest
    hashes.
   */
  method ValidateRecords(lim: Limits, entries: seq<Entry>)
    returns (ok: bool, count: nat, bytes: nat, newest: map<string, Hash>, ids: set<string>)
    ensures ok <==>
              (forall i :: 0 <= i < |entries| ==> EntryOk(lim, entries[i]))
                  && Bytes(Records(lim, entries)) <= MAX_UINT64
    ensures ok ==> Tallied(lim, entries, |entries|, count, bytes, newest, ids)
  {
    count, bytes, newest, ids := 0, 0, map[], {};
    assert entries[..0] == [];
    for i := 0 to |entries|
      invariant Tallied(lim, entries, i, count, bytes, newest, ids)
    {
      var e := entries[i];
      if e.keyLength != 8 || e.key == 0 || !e.raw.Decoded? || !e.raw.canonical {
        return false, 0, 0, map[], {};
      }
      var record := e.raw.value;
      if record.sequence != e.key || !RecordOk(lim, record) {
        return false, 0, 0, map[], {};
      }
      if e.size > MAX_UINT64 - bytes {
        if forall k :: 0 <= k < |entries| ==> EntryOk(lim, entries[k]) {
          RecordsAppend(lim, entries, i);
          BytesGrow(lim, entries, i + 1);
        }
        return false, 0, 0, map[], {};
      }
      TallyStep(lim, entries, i, bytes, newest, ids);
      count, bytes := count + 1, bytes + e.size;
      newest, ids := newest[record.id := record.hash], ids + {record.id};
    }
    assert entries[..|entries|] == entries;
    return true, count, bytes, newest, ids;
  }

  /**
    `validateCheckpoints`: checks each checkpoint against the newest hashes and strikes its id off; nothing may
    remain.
   */
  method ValidateCheckpoints(lim: Limits, checkpoints: map<string, Raw<Checkpoint>>, newest: map<string, Hash>,
                             ids: set<string>)
    returns (ok: bool)
    ensures ok <==> CheckpointsAgree(lim, checkpoints, newest, ids)
  {
    var left, todo := ids, checkpoints.Keys;
    while todo != {}
      invariant todo <= checkpoints.Keys && left == ids - (checkpoints.Keys - todo)
      invariant forall id :: id in checkpoints && id !in todo ==>
        StoredCheckpointOk(lim, id, checkpoints[id]) && checkpoints[id].value.pendingHash == Lookup(newest, id)
      decreases todo
    {
      var id :| id in todo;
      var raw := checkpoints[id];
      if !raw.Decoded? {
        return false;
      }
      var cp := raw.value;
      if cp.id == "" || cp.id != id || !ValidId(lim, cp.id) || !raw.canonical || !HashOk(cp.pendingHash)
         || !HashOk(cp.deliveredHash)
         || cp.lastFetchedAt < 0 || cp.lastSeenAt < 0 || cp.absentSince < 0 || cp.pendingHash != Lookup(newest, cp.id) {
        return false;
      }
      left, todo := left - {cp.id}, todo - {id};
    }
    return left == {};
  }

  ghost predicate CheckpointsAgree(lim: Limits, checkpoints: map<string, Raw<Checkpoint>>, newest: map<string, Hash>,
                                   ids: set<string>) {
    && (forall id :: id in checkpoints ==>
          StoredCheckpointOk(lim, id, checkpoints[id]) && checkpoints[id].value.pendingHash == Lookup(newest, id))
    && ids <= checkpoints.Keys
  }

  /** After the tally of all records, the checkpoint walk decides the rest. */
  lemma TallyDecides(lim: Limits, c: Contents, count: nat, bytes: nat, newest: map<string, Hash>, ids: set<string>)
    requires c.version in {None, Some("1")} && Tallied(lim, c.entries, |c.entries|, count, bytes, newest, ids)
    ensures CheckpointsAgree(lim, c.checkpoints, newest, ids) <==> Acceptable(lim, c)
    ensures bytes == Bytes(Records(lim, c.entries))
  {
    assert c.entries[..|c.entries|] == c.entries;
    assert forall i :: 0 <= i < |c.entries| ==> RecordOf(lim, c.entries[i]).id in ids;
  }

  /** The startup check accepts exactly the acceptable contents, and the counters it writes are the true ones. */
  method ValidateAndMigrate(lim: Limits, c: Contents) returns (r: Report)
    ensures r.Accepted? <==> Acceptable(lim, c)
    ensures r.Accepted? ==> r.count == |c.entries| && r.bytes == Bytes(Records(lim, c.entries))
  {
    if c.version.Some? && c.version.value != "1" {
      return Rejected;
    }
    var ok, count, bytes, newest, ids := ValidateRecords(lim, c.entries);
    if !ok {
      return Rejected;
    }
    TallyDecides(lim, c, count, bytes, newest, ids);
    ok := ValidateCheckpoints(lim, c.checkpoints, newest, ids);
    if !ok {
      return Rejected;
    }
    return Accepted(count, bytes);
  }

  // ---------------------------------------------------------------- reachable stores pass

  function EntryFor(r: Record): Entry {
    Entry(8, r.sequence, r.size, Decoded(r, true))
  }

  /** A live store as it lies on disk. */
  function Stored(s: State): Contents {
    Contents(Some("1"),
             seq(|s.queue|, i requires 0 <= i < |s.queue| => EntryFor(s.queue[i])),
             map id | id in s.checkpoints :: Decoded(s.checkpoints[id], true))
  }

  lemma StoredRecords(lim: Limits, s: State)
    requires forall i :: 0 <= i < |s.queue| ==> RecordOk(lim, s.queue[i])
    ensures forall i :: 0 <= i < |s.queue| ==> EntryOk(lim, Stored(s).entries[i])
    ensures Records(lim, Stored(s).entries) == s.queue
  {
  }

  lemma StoredIsAcceptable(lim: Limits, s: State)
    requires StoreInv(lim, s) && Bytes(s.queue) <= MAX_UINT64
    ensures Acceptable(lim, Stored(s))
  {
    StoredRecords(lim, s);
    var c := Stored(s);
    assert forall id :: id in c.checkpoints ==>
             id in s.checkpoints && c.checkpoints[id] == Decoded(s.checkpoints[id], true);
  }

  /**
    Every reachable store whose bytes fit a uint64 passes the startup check, and the restart changes nothing:
    the counters it recomputes are the ones already stored.
   */
  lemma {:induction false} ReachableStoreReopensUnchanged(lim: Limits, tr: Trace)
    requires lim.maxBytes <= MAX_UINT64
    ensures Acceptable(lim, Stored(Run(lim, tr).s))
    ensures Reopened(Run(lim, tr).s) == Run(lim, tr).s
  {
    RunKeepsStore(lim, tr);
    RunStaysWithinLimits(lim, tr);
    StoredIsAcceptable(lim, Run(lim, tr).s);
  }
}
