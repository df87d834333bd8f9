/**
  The worker that drives the scan: one `Cycle` per poll, with its page and detail budgets and its
  concurrent record workers (internal/historyscan/scan.go). The ghost `trace` is the run that the
  durable state has gone through; `Valid` says that the store holds exactly what that run leaves.
 */
module HistoryWorker {
  import opened Options
  import opened Runs
  import opened Instants
  import opened HistoryState
  import opened HistoryScan
  import opened HistoryCoverage
  import opened HistoryPending

  /**
    How a cycle ended. `IsExpired`: the retention test blocked the scan. `ItemExpired`: an item too old for its target
    store did. `ExpiryLost`: such an item was found, but the store refused the block.
   */
  datatype Outcome =
    Finished | Cancelled | StoreFailed | SourceFailed | BadPage | IsBlocked | IsExpired | ItemExpired | ExpiryLost

  datatype RecordResult = Stored | Refused | TooOld

  datatype ListResult = Answer(items: seq<Item>, complete: bool) | NoAnswer

  /** A whole second strictly inside the window. */
  predicate SplitAt(w: Window, mid: int) {
    w.start < mid < w.end && Aligned(mid)
  }

  /** The newest window gives way to its two halves, the later one first. */
  ghost predicate IsSplit(p: Progress, p': Progress)
    requires p.windows != []
  {
    var w := p.windows[0];
    exists mid :: SplitAt(w, mid) && p' == p.(windows := [Window(mid, w.end), Window(w.start, mid)] + p.windows[1..])
  }

  /**
    What an answer for the newest window leads to. No answer, a page that fails its check and a store that refuses
    change nothing. A complete page is opened with exactly its items; an incomplete one is split, or blocks the scan
    when its window is at most a second.
   */
  ghost predicate ListedAs(p: Progress, p': Progress, answer: ListResult, r: Outcome)
    requires p.windows != []
  {
    var w := p.windows[0];
    if !answer.Answer? then r == SourceFailed && p' == p
    else if !PageOk(answer.items, w) then r == BadPage && p' == p
    else if r == StoreFailed then p' == p
    else if answer.complete then
      r == Finished && p' == p.(pending := answer.items, page := Some(w), windows := p.windows[1..])
    else if w.end - w.start <= SECOND then r == IsBlocked && p' == p.(block := Saturated)
    else r == Finished && IsSplit(p, p')
  }

  /** What a turn that is neither cancelled nor stopped does: it records, closes the page, lists, or ends the cycle. */
  ghost predicate Advances(p: Progress, p': Progress, cfg: Config, answer: ListResult, r: Outcome, more: bool,
                           pages: nat, details: nat, pages': nat, details': nat)
  {
    if p.pending != [] && details < cfg.detailMax then
      var n := if cfg.detailMax - details < |p.pending| then cfg.detailMax - details else |p.pending|;
      && pages' == pages && more == (r == Finished)
      && (r == Finished ==> details' == details + n && p' == p.(pending := Attempt(p.pending, n, {})))
    else if p.pending != [] then pages' == pages && !more && r == Finished && p' == p
    else if p.page.Some? then
      && pages' == pages && more == (r == Finished) && (r == Finished || r == StoreFailed)
      && p' == if r == StoreFailed then p
               else p.(page := None, lastCompleted := if p.windows == [] then p.end else p.lastCompleted)
    else if p.windows == [] || pages == cfg.maxPages then !more && r == Finished && p' == p && pages' == pages
    else pages' == pages + 1 && more == (r == Finished) && ListedAs(p, p', answer, r)
  }

  /** A complete page with more items than may be pending. */
  predicate Oversize(answer: ListResult, maxPending: nat) {
    answer.Answer? && answer.complete && |answer.items| > maxPending
  }

  /** A cycle over this progress can only expire it. */
  predicate Overdue(p: Progress, now: int, cfg: Config) {
    p.block == Unblocked && HeadExpired(p, now, cfg.retention)
  }

  /** A cycle over this progress neither lists nor records. */
  predicate Stopped(p: Progress, now: int, cfg: Config) {
    p.block != Unblocked || Overdue(p, now, cfg)
  }

  function CountListed(tr: Trace): nat {
    if tr.Start? then 0 else CountListed(tr.before) + if tr.action.Listed? then 1 else 0
  }

  function CountRecorded(tr: Trace): nat {
    if tr.Start? then 0 else CountRecorded(tr.before) + if tr.action.Recorded? then 1 else 0
  }

  /** The page check with its running `seen` set. */
  method CheckPage(items: seq<Item>, w: Window) returns (ok: bool)
    ensures ok == PageOk(items, w)
  {
    var seen: set<string> := {};
    for i := 0 to |items|
      invariant PageOk(items[..i], w)
      invariant seen == set k | 0 <= k < i :: items[k].id
    {
      var item := items[i];
      if item.id == "" || item.id in seen || item.when < Truncate(w.start) || item.when > RoundUp(w.end) {
        if item.id in seen {
          var k :| 0 <= k < i && items[k].id == item.id;
          assert !UniqueIds(items);
        }
        return false;
      }
      seen := seen + {item.id};
      assert items[..i + 1] == items[..i] + [item];
    }
    assert items[..|items|] == items;
    return true;
  }

  predicate Distinct(batch: seq<Item>) {
    forall i, j :: 0 <= i < j < |batch| ==> batch[i] != batch[j]
  }

  /** What is off the pending list: dispatched, no longer busy, acknowledged and not left behind by a failure. */
  function Gone(batch: seq<Item>, sent: nat, busy: set<nat>, done: set<nat>, left: set<nat>): set<Item>
    requires sent <= |batch|
  {
    set i | 0 <= i < sent && i !in busy && i !in done && i !in left :: batch[i]
  }

  /**
    A batch under way at the front of the list `all`: `sent` positions are dispatched; those in `busy` are being
    recorded, those in `done` are recorded but not yet acknowledged, those in `left` failed; every other dispatched
    one is off the list.
   */
  ghost predicate BatchState(all: seq<Item>, batch: seq<Item>, pending: seq<Item>, inflight: set<Item>,
                             sent: nat, busy: set<nat>, done: set<nat>, left: set<nat>)
  {
    && sent <= |batch| && batch <= all && Distinct(batch) && busy !! done && busy !! left && done !! left
    && (forall i :: i in busy || i in done || i in left ==> i < sent)
    && (forall i :: i in done ==> batch[i] in inflight)
    && pending == Minus(all, Gone(batch, sent, busy, done, left))
  }

  /** Whatever is not off the list is still pending. */
  lemma StillPending(all: seq<Item>, batch: seq<Item>, pending: seq<Item>, inflight: set<Item>,
                     sent: nat, busy: set<nat>, done: set<nat>, left: set<nat>, i: nat)
    requires BatchState(all, batch, pending, inflight, sent, busy, done, left) && i < |batch|
    ensures batch[i] in pending <==> i >= sent || i in busy || i in done || i in left
  {
    MinusHas(all, Gone(batch, sent, busy, done, left), batch[i]);
    assert batch[i] == all[i];
  }

  lemma AckKeepsBatchState(all: seq<Item>, batch: seq<Item>, pending: seq<Item>, inflight: set<Item>,
                           sent: nat, busy: set<nat>, done: set<nat>, left: set<nat>, i: nat)
    requires BatchState(all, batch, pending, inflight, sent, busy, done, left) && i in done && UniqueIds(pending)
    ensures batch[i] in pending
    ensures BatchState(all, batch, WithoutId(pending, batch[i].id), inflight - {batch[i]}, sent, busy, done - {i}, left)
  {
    var gone := Gone(batch, sent, busy, done, left);
    StillPending(all, batch, pending, inflight, sent, busy, done, left, i);
    WithoutIdIsMinus(pending, batch[i]);
    MinusTwice(all, gone, {batch[i]});
    assert Gone(batch, sent, busy, done - {i}, left) == gone + {batch[i]};
    assert forall j :: 0 <= j < |batch| && j != i ==> batch[j] != batch[i];
  }

  /** A position that fails, in recording or in the acknowledgement, is left behind. */
  lemma FailureKeepsBatchState(all: seq<Item>, batch: seq<Item>, pending: seq<Item>, inflight: set<Item>,
                               sent: nat, busy: set<nat>, done: set<nat>, left: set<nat>, i: nat)
    requires BatchState(all, batch, pending, inflight, sent, busy, done, left) && (i in busy || i in done)
    ensures BatchState(all, batch, pending, inflight, sent, busy - {i}, done - {i}, left + {i})
  {
    assert Gone(batch, sent, busy - {i}, done - {i}, left + {i}) == Gone(batch, sent, busy, done, left);
  }

  lemma RecordKeepsBatchState(all: seq<Item>, batch: seq<Item>, pending: seq<Item>, inflight: set<Item>,
                              sent: nat, busy: set<nat>, done: set<nat>, left: set<nat>, i: nat)
    requires BatchState(all, batch, pending, inflight, sent, busy, done, left) && i in busy
    ensures BatchState(all, batch, pending, inflight + {batch[i]}, sent, busy - {i}, done + {i}, left)
  {
    assert Gone(batch, sent, busy - {i}, done + {i}, left) == Gone(batch, sent, busy, done, left);
  }

  lemma LaunchKeepsBatchState(all: seq<Item>, batch: seq<Item>, pending: seq<Item>, inflight: set<Item>,
                              sent: nat, busy: set<nat>, done: set<nat>, left: set<nat>)
    requires BatchState(all, batch, pending, inflight, sent, busy, done, left) && sent < |batch|
    ensures BatchState(all, batch, pending, inflight, sent + 1, busy + {sent}, done, left)
  {
    assert Gone(batch, sent + 1, busy + {sent}, done, left) == Gone(batch, sent, busy, done, left);
  }

  lemma FrontIsDistinct(all: seq<Item>, batch: seq<Item>)
    requires UniqueIds(all) && batch <= all
    ensures Distinct(batch)
  {
    assert forall i :: 0 <= i < |batch| ==> batch[i] == all[i];
  }

  lemma BatchStarts(tr: Trace, batch: seq<Item>)
    requires batch <= Run(tr).p.pending
    ensures BatchState(Run(tr).p.pending, batch, Run(tr).p.pending, {}, 0, {}, {}, {})
  {
    RunKeepsInv(tr);
    var pending := Run(tr).p.pending;
    FrontIsDistinct(pending, batch);
    MinusNothing(pending, {});
    assert Gone(batch, 0, {}, {}, {}) == {};
  }

  class Worker {
    const store: Store
    const cfg: Config
    ghost var trace: Trace
    ghost var scan: Scan        // the state after `trace`
    ghost var listings: nat     // listings answered so far
    ghost var records: nat      // successful records so far

    ghost predicate Valid()
      reads this, store
    {
      && cfg.Valid() && KeepsOverlap(scan.p, cfg)
      && scan == Run(trace) && scan.p == store.saved
      && listings == CountListed(trace) && records == CountRecorded(trace)
    }

    /** Reopening a store after any earlier run: whatever workers there were are gone. */
    constructor (store: Store, cfg: Config, ghost earlier: Trace)
      requires cfg.Valid() && Run(earlier).p == store.saved && KeepsOverlap(store.saved, cfg)
      ensures this.store == store && this.cfg == cfg && trace == Then(earlier, WorkersGone)
      ensures Valid() && scan.inflight == {}
    {
      this.store, this.cfg, trace := store, cfg, Then(earlier, WorkersGone);
      scan := Run(Then(earlier, WorkersGone));
      listings, records := CountListed(Then(earlier, WorkersGone)), CountRecorded(Then(earlier, WorkersGone));
    }

    /** `New` refuses a store written under another overlap. */
    static method Open(store: Store, cfg: Config, ghost earlier: Trace) returns (w: Worker?)
      requires cfg.Valid() && Run(earlier).p == store.saved
      ensures w == null <==> !KeepsOverlap(store.saved, cfg)
      ensures w != null ==> fresh(w) && w.store == store && w.cfg == cfg && w.Valid() && w.scan.inflight == {}
    {
      if store.saved.lookback != 0 && store.saved.overlap != cfg.overlap {
        return null;
      }
      w := new Worker(store, cfg, earlier);
    }

    /** Event `e` happened; the store already holds what it leaves. */
    ghost method Happen(e: Event)
      requires cfg.Valid() && scan == Run(trace) && listings == CountListed(trace) && records == CountRecorded(trace)
      requires Step(scan, e).p == store.saved && KeepsOverlap(scan.p, cfg) && (e.Plan? ==> e.cfg == cfg)
      modifies this
      ensures Valid() && trace == Then(old(trace), e) && scan == Step(old(scan), e)
      ensures listings == old(listings) + if e.Listed? then 1 else 0
      ensures records == old(records) + if e.Recorded? then 1 else 0
    {
      scan := Step(scan, e);
      trace := Then(trace, e);
      listings, records := CountListed(trace), CountRecorded(trace);
    }

    /** One transaction of the scan: either event `e` happened durably, or nothing did. */
    method Commit(changed: Progress, ghost e: Event) returns (v: Verdict)
      requires Valid() && Step(scan, e).p == changed && (e.Plan? ==> e.cfg == cfg)
      modifies this, store
      ensures Valid() && (v == Ok ==> WithinCaps(changed, cfg.maxPending))
      ensures v == Ok ==> trace == Then(old(trace), e) && scan == Step(old(scan), e)
      ensures v == Ok ==> listings == old(listings) + if e.Listed? then 1 else 0
      ensures v == Ok ==> records == old(records) + if e.Recorded? then 1 else 0
      ensures v != Ok ==> unchanged(this) && store.saved == old(store.saved)
    {
      v := store.Update(cfg.maxPending, changed);
      if v == Ok {
        Happen(e);
      }
    }

    /** A worker's `source.Record`: a success is durable in the target store before anything else. */
    method Record(item: Item) returns (outcome: RecordResult)
      requires Valid() && store.saved.block == Unblocked && store.saved.page.Some? && item in store.saved.pending
      modifies this
      ensures Valid() && listings == old(listings)
      ensures trace == if outcome == Stored then Then(old(trace), Recorded(item)) else old(trace)
      ensures scan.inflight == old(scan.inflight) + if outcome == Stored then {item} else {}
      ensures records == old(records) + if outcome == Stored then 1 else 0
    {
      outcome := *;
      if outcome == Stored {
        Happen(Recorded(item));
      }
    }

    /** A worker's acknowledgement of an item it has recorded. */
    method Acknowledge(item: Item) returns (v: Verdict)
      requires Valid() && item in scan.inflight
      modifies this, store
      ensures Valid() && listings == old(listings) && records == old(records)
      ensures trace == if v == Ok then Then(old(trace), Acked(item)) else old(trace)
      ensures v != Ok ==> scan == old(scan)
      ensures v == Ok ==> scan.inflight == old(scan.inflight) - {item}
      ensures store.saved == old(store.saved).(pending := store.saved.pending)
      ensures store.saved.pending ==
                if v == Ok then WithoutId(old(store.saved.pending), item.id) else old(store.saved.pending)
      ensures forall x :: x in store.saved.pending <==> x in old(store.saved.pending) && (v == Ok ==> x != item)
    {
      RunKeepsInv(trace);
      WithoutIdRemovesOne(store.saved.pending, item);
      v := Commit(store.saved.(pending := WithoutId(store.saved.pending, item.id)), Acked(item));
    }

    ghost predicate Working(all: seq<Item>, batch: seq<Item>, sent: nat, busy: set<nat>, done: set<nat>, left: set<nat>)
      reads this, store
    {
      && Valid() && store.saved.block == Unblocked && store.saved.page.Some?
      && BatchState(all, batch, store.saved.pending, scan.inflight, sent, busy, done, left)
    }

    /** The next position of the batch is dispatched to a worker. */
    method Launch(ghost all: seq<Item>, batch: seq<Item>, sent: nat, busy: set<nat>, ghost done: set<nat>,
        ghost left: set<nat>)
      returns (busy': set<nat>)
      requires Working(all, batch, sent, busy, done, left) && sent < |batch|
      ensures Working(all, batch, sent + 1, busy', done, left) && |busy'| == |busy| + 1
    {
      LaunchKeepsBatchState(all, batch, store.saved.pending, scan.inflight, sent, busy, done, left);
      busy' := busy + {sent};
    }

    /** Some busy worker finishes its `Record` call. */
    method FinishRecord(ghost first: Trace, ghost all: seq<Item>, batch: seq<Item>, sent: nat, busy: set<nat>,
        done: set<nat>, left: set<nat>)
      returns (busy': set<nat>, done': set<nat>, left': set<nat>, outcome: RecordResult)
      requires Working(all, batch, sent, busy, done, left) && busy != {} && Continues(first, trace)
      modifies this
      ensures Working(all, batch, sent, busy', done', left')
      ensures left <= left' && (outcome == Stored <==> left' == left) && (outcome != Stored ==> left' != {})
      ensures Continues(first, trace) && store.saved == old(store.saved) && listings == old(listings)
      ensures records + |busy'| <= old(records) + |busy| && |busy'| < |busy|
    {
      var i :| i in busy;
      ghost var pending, inflight := store.saved.pending, scan.inflight;
      StillPending(all, batch, pending, inflight, sent, busy, done, left, i);
      RecordKeepsBatchState(all, batch, pending, inflight, sent, busy, done, left, i);
      FailureKeepsBatchState(all, batch, pending, inflight, sent, busy, done, left, i);
      assert done - {i} == done;
      outcome := Record(batch[i]);
      ContinuesTransitive(first, old(trace), trace);
      busy' := busy - {i};
      done', left' := if outcome == Stored then done + {i} else done, if outcome == Stored then left else left + {i};
    }

    /** Some worker acknowledges what it recorded. */
    method FinishAck(ghost first: Trace, ghost all: seq<Item>, batch: seq<Item>, sent: nat, busy: set<nat>,
        done: set<nat>, left: set<nat>)
      returns (done': set<nat>, left': set<nat>, v: Verdict)
      requires Working(all, batch, sent, busy, done, left) && done != {} && Continues(first, trace)
      modifies this, store
      ensures Working(all, batch, sent, busy, done', left')
      ensures left <= left' && (v == Ok <==> left' == left) && (v != Ok ==> left' != {})
      ensures store.saved == old(store.saved).(pending := store.saved.pending)
      ensures Continues(first, trace) && listings == old(listings) && records == old(records)
      ensures |done'| < |done|
    {
      var i :| i in done;
      ghost var pending, inflight := store.saved.pending, scan.inflight;
      PendingIsUnique(trace);
      AckKeepsBatchState(all, batch, pending, inflight, sent, busy, done, left, i);
      FailureKeepsBatchState(all, batch, pending, inflight, sent, busy, done, left, i);
      assert busy - {i} == busy;
      v := Acknowledge(batch[i]);
      ContinuesTransitive(first, old(trace), trace);
      done', left' := done - {i}, if v == Ok then left else left + {i};
    }

    static lemma PendingIsUnique(tr: Trace)
      ensures UniqueIds(Run(tr).p.pending)
    {
      RunKeepsInv(tr);
    }

    /**
      The record workers over one batch. Dispatch may stop early; any dispatched item may finish
      recording and be acknowledged in any order relative to the others, and each step may fail. The positions whose
      recording or acknowledgement failed are left; every other dispatched item is off the list, which keeps its order.
     */
    method RecordBatch(batch: seq<Item>) returns (sent: nat, left: set<nat>, tooOld: bool)
      requires Valid() && scan.inflight == {} && store.saved.block == Unblocked && store.saved.page.Some?
      requires batch <= store.saved.pending
      modifies this, store
      ensures Valid() && scan.inflight == {} && Continues(old(trace), trace)
      ensures sent <= |batch| && (tooOld ==> left != {})
      ensures store.saved.pending == Minus(old(store.saved.pending), Gone(batch, sent, {}, {}, left))
      ensures store.saved == old(store.saved).(pending := store.saved.pending)
      ensures listings == old(listings) && records <= old(records) + sent
    {
      var busy: set<nat>, done: set<nat> := {}, {};   // positions being recorded, and recorded but not yet acknowledged
      var stopped := false;
      ghost var all := store.saved.pending;
      sent, left, tooOld := 0, {}, false;
      BatchStarts(trace, batch);
      while
        invariant Working(all, batch, sent, busy, done, left)
        invariant Continues(old(trace), trace) && (tooOld ==> left != {})
        invariant store.saved == old(store.saved).(pending := store.saved.pending)
        invariant listings == old(listings) && records + |busy| <= old(records) + sent
        decreases |batch| - sent, |busy|, |done|, !stopped
      {
        case !stopped && sent < |batch| && |busy| + |done| < cfg.concurrency =>
          busy := Launch(all, batch, sent, busy, done, left);
          sent := sent + 1;
        case !stopped && sent < |batch| =>
          stopped := true;
        case busy != {} =>
          var outcome;
          busy, done, left, outcome := FinishRecord(old(trace), all, batch, sent, busy, done, left);
          if outcome != Stored {
            tooOld := outcome == TooOld;   // a later failure replaces an earlier one
          }
        case done != {} =>
          var v;
          done, left, v := FinishAck(old(trace), all, batch, sent, busy, done, left);
          if v != Ok {
            tooOld := false;
          }
      }
      Happen(WorkersGone);
    }

    /**
      What the cycle does with the answer of `source.List` for the newest window: the page check and the transaction. A
      complete page that exceeds the pending limit is refused and changes nothing.
     */
    method ListNext(answer: ListResult) returns (r: Outcome)
      requires Valid() && scan.inflight == {} && store.saved.block == Unblocked
      requires store.saved.page.None? && store.saved.pending == [] && store.saved.windows != []
      modifies this, store
      ensures Valid() && scan.inflight == {} && records == old(records)
      ensures ListedAs(old(store.saved), store.saved, answer, r)
      ensures r == Finished || r == IsBlocked ==>
                && trace.Then? && trace.before == old(trace) && trace.action.Listed?
                && trace.action.items == answer.items && trace.action.complete == answer.complete
      ensures r == StoreFailed || r == SourceFailed || r == BadPage ==> trace == old(trace)
      ensures Oversize(answer, cfg.maxPending) ==> r == BadPage || r == StoreFailed
      ensures Continues(old(trace), trace) && listings <= old(listings) + 1
    {
      var p := store.saved;
      var w := p.windows[0];
      if !answer.Answer? {
        return SourceFailed;
      }
      var ok := CheckPage(answer.items, w);
      if !ok {
        return BadPage;
      }
      ghost var at :| at >= scan.log.planNow;
      ghost var e := Listed(answer.items, answer.complete, at);
      var v: Verdict;
      if !answer.complete {
        if w.end - w.start <= SECOND {
          v := Commit(p.(block := Saturated), e);
          return if v == Ok then IsBlocked else StoreFailed;
        }
        var mid := Truncate(w.start + (w.end - w.start) / 2);
        if mid <= w.start {
          mid := w.start + SECOND;
        }
        SplitNeverSaturates(trace);
        assert SplitAt(w, mid);
        assert mid < w.end;   // so the second fallback, returning ErrSaturated without a write, is dead
        v := Commit(p.(windows := [Window(mid, w.end), Window(w.start, mid)] + p.windows[1..]), e);
      } else {
        v := Commit(p.(pending := answer.items, page := Some(w), windows := p.windows[1..]), e);
      }
      return if v == Ok then Finished else StoreFailed;
    }

    static lemma SplitNeverSaturates(tr: Trace)
      requires Run(tr).p.windows != [] && Run(tr).p.page.None?
      requires Run(tr).p.windows[0].end - Run(tr).p.windows[0].start > SECOND
      ensures
        var w := Run(tr).p.windows[0];
        SplitPoint(w).Some? && SplitAt(w, SplitPoint(w).value)
    {
      RunKeepsInv(tr);
      SplitIsStrict(Run(tr).p.windows[0]);
    }

    method Expel(now: int) returns (r: Outcome)
      requires Valid() && scan.inflight == {} && store.saved.block == Unblocked
      requires HeadExpired(store.saved, now, cfg.retention)
      modifies this, store
      ensures Valid() && scan.inflight == {} && listings == old(listings) && records == old(records)
      ensures Continues(old(trace), trace)
      ensures r == IsExpired ==> store.saved == old(store.saved).(block := Expired)
      ensures r == IsExpired || (r == StoreFailed && trace == old(trace) && store.saved == old(store.saved))
    {
      var v := Commit(store.saved.(block := Expired), Expire(now, cfg.retention));
      return if v == Ok then IsExpired else StoreFailed;
    }

    method ExpelForItem() returns (r: Outcome)
      requires Valid() && scan.inflight == {} && store.saved.block == Unblocked && store.saved.page.Some?
      modifies this, store
      ensures Valid() && scan.inflight == {} && listings == old(listings) && records == old(records)
      ensures Continues(old(trace), trace)
      ensures r == ItemExpired ==> store.saved == old(store.saved).(block := Expired)
      ensures r == ItemExpired || (r == ExpiryLost && trace == old(trace) && store.saved == old(store.saved))
    {
      var v := Commit(store.saved.(block := Expired), ItemTooOld);
      return if v == Ok then ItemExpired else ExpiryLost;
    }

    /**
      The next `n` pending items. When the last failure is that an item is too old for its target store, the scan is
      blocked as expired, unless the store refuses even that. If all were dispatched, exactly the ones that failed, told
      by `failing`, are still pending, in their order.
     */
    method RecordPending(n: nat) returns (r: Outcome, sent: nat, ghost failing: set<Item>)
      requires Valid() && scan.inflight == {} && store.saved.block == Unblocked && 0 < n <= |store.saved.pending|
      modifies this, store
      ensures Valid() && scan.inflight == {} && Continues(old(trace), trace)
      ensures listings == old(listings) && records <= old(records) + sent && sent <= n
      ensures r in {Finished, SourceFailed, Cancelled, ItemExpired, ExpiryLost}
      ensures store.saved == old(store.saved).(pending := store.saved.pending,
                                               block := if r == ItemExpired then Expired else Unblocked)
      ensures sent == n ==> store.saved.pending == Attempt(old(store.saved.pending), n, failing)
      ensures r == Finished ==> sent == n && failing == {}
    {
      ghost var pending := store.saved.pending;
      PendingHasPage(trace);
      var left, tooOld;
      var batch := store.saved.pending[..n];
      sent, left, tooOld := RecordBatch(batch);
      failing := set i | i in left && i < n :: batch[i];
      PendingIsUnique(old(trace));
      if sent == n {
        LeftAreFailing(pending, n, left, failing);
      }
      if tooOld {
        ghost var before := trace;
        r := ExpelForItem();
        ContinuesTransitive(old(trace), before, trace);
        return;
      }
      if left != {} {
        r := SourceFailed;
        return;
      }
      assert failing == {};
      r := if sent < n then Cancelled else Finished;
    }

    static lemma LeftAreFailing(pending: seq<Item>, n: nat, left: set<nat>, failing: set<Item>)
      requires n <= |pending| && UniqueIds(pending) && failing == set i | i in left && i < n :: pending[..n][i]
      ensures Minus(pending, Gone(pending[..n], n, {}, {}, left)) == Attempt(pending, n, failing)
    {
      FrontIsDistinct(pending, pending[..n]);
      GoneIsTried(pending, pending[..n], left, failing);
    }

    static lemma GoneIsTried(pending: seq<Item>, batch: seq<Item>, left: set<nat>, failing: set<Item>)
      requires batch <= pending && Distinct(batch) && failing == set i | i in left && i < |batch| :: batch[i]
      ensures Gone(batch, |batch|, {}, {}, left) == Tried(pending, |batch|) - failing
    {
      assert forall i :: 0 <= i < |batch| ==> batch[i] == pending[i];
    }

    /** What one turn of the loop leaves: whether to go on, how it ended otherwise, and the budgets used so far. */
    ghost predicate TurnOk(p: Progress, now: int, r: Outcome, more: bool, pages: nat, details: nat, pages': nat,
                           details': nat)
      reads this, store
    {
      && pages <= pages' <= cfg.maxPages && details <= details' <= cfg.detailMax
      && (Stopped(p, now, cfg) ==> !more && pages' == pages && details' == details)
      && (p.block != Unblocked ==> store.saved == p && r in {IsBlocked, Cancelled})
      && (Overdue(p, now, cfg) ==> r in {IsExpired, Cancelled, StoreFailed})
      && (more ==> pages' > pages || details' > details || (p.page.Some? && store.saved.page.None?))
      && (!more ==> Ended(store.saved, now, r, pages', details'))
    }

    /** What the outcome of a cycle says about the progress it leaves. */
    predicate Ended(p: Progress, now: int, r: Outcome, pages: nat, details: nat)
    {
      && (r == Finished ==> !Active(p) || pages == cfg.maxPages || details == cfg.detailMax)
      && (r == IsBlocked ==> p.block != Unblocked)
      && (r == IsExpired ==> p.block == Expired && HeadExpired(p, now, cfg.retention))
      && (r == ItemExpired ==> p.block == Expired)
    }

    /** One turn of the loop of `cycle`; `answer` is what the source would answer if it were asked. */
    method Turn(now: int, pages: nat, details: nat, cancelled: bool, answer: ListResult)
      returns (r: Outcome, more: bool, pages': nat, details': nat)
      requires Valid() && scan.inflight == {} && pages <= cfg.maxPages && details <= cfg.detailMax
      modifies this, store
      ensures Valid() && scan.inflight == {} && Continues(old(trace), trace)
      ensures TurnOk(old(store.saved), now, r, more, pages, details, pages', details')
      ensures r == Cancelled ==> cancelled || old(store.saved.pending) != []
      ensures !cancelled && !Stopped(old(store.saved), now, cfg) ==>
                Advances(old(store.saved), store.saved, cfg, answer, r, more, pages, details, pages', details')
      ensures listings <= old(listings) + pages' - pages && records <= old(records) + details' - details
    {
      r, more, pages', details' := Finished, false, pages, details;
      var p := store.saved;
      PendingHasPage(trace);
      var floor := Truncate(now - cfg.retention);
      if cancelled {
        r := Cancelled;
      } else if p.block != Unblocked {
        r := IsBlocked;
      } else if p.page.Some? && p.page.value.start < floor {
        r := Expel(now);
      } else if |p.pending| > 0 {
        if details < cfg.detailMax {
          var n := if cfg.detailMax - details < |p.pending| then cfg.detailMax - details else |p.pending|;
          var sent;
          ghost var failing;
          r, sent, failing := RecordPending(n);
          more, details' := r == Finished, details + sent;
        }
      } else if p.page.Some? {
        var v := Commit(AfterClose(p), Closed);
        r, more := if v == Ok then Finished else StoreFailed, v == Ok;
      } else if p.windows != [] {
        if p.windows[0].start < floor {
          r := Expel(now);
        } else if pages < cfg.maxPages {
          r := ListNext(answer);
          more, pages' := r == Finished, pages + 1;
        }
      }
    }

    /**
      One poll at time `now`. It ends within its budgets whatever the source and the store answer, leaves no
      worker behind, and everything it does to the durable state is a continuation of the run so far. It expires the
      scan only by the retention test at `now` or for an item, and an overdue scan it can only expire.
     */
    method Cycle(now: int) returns (r: Outcome, pages: nat, details: nat)
      requires Valid() && scan.inflight == {} && now > 0
      modifies this, store
      ensures Valid() && scan.inflight == {} && Continues(old(trace), trace)
      ensures pages <= cfg.maxPages && details <= cfg.detailMax
      ensures listings <= old(listings) + pages && records <= old(records) + details
      ensures old(store.saved.block) != Unblocked && old(store.saved.lookback) == cfg.lookback ==>
                store.saved == old(store.saved) && pages == 0 && details == 0
      ensures Ended(store.saved, now, r, pages, details)
      ensures Overdue(Planned(Reconfigured(old(store.saved), cfg), now, cfg), now, cfg) ==>
                pages == 0 && details == 0 && r in {IsExpired, Cancelled, StoreFailed}
    {
      r, pages, details := Finished, 0, 0;
      ghost var planned := Planned(Reconfigured(store.saved, cfg), now, cfg);
      var v := Commit(Planned(Reconfigured(store.saved, cfg), now, cfg), Plan(now, cfg));
      if v != Ok {
        return StoreFailed, pages, details;
      }
      ghost var start := trace;
      var more := true;
      while more
        invariant Valid() && scan.inflight == {} && Continues(start, trace)
        invariant pages <= cfg.maxPages && details <= cfg.detailMax
        invariant listings <= old(listings) + pages && records <= old(records) + details
        invariant Stopped(planned, now, cfg) ==> pages == 0 && details == 0 && (more ==> store.saved == planned)
        invariant planned.block != Unblocked ==> store.saved == planned
        invariant !more ==> Ended(store.saved, now, r, pages, details)
        invariant !more && Overdue(planned, now, cfg) ==> r in {IsExpired, Cancelled, StoreFailed}
        decreases more, cfg.maxPages - pages, cfg.detailMax - details, store.saved.page.Some?
      {
        ghost var before := trace;
        var cancelled: bool, answer: ListResult := *, *;
        r, more, pages, details := Turn(now, pages, details, cancelled, answer);
        ContinuesTransitive(start, before, trace);
      }
      ContinuesTransitive(old(trace), start, trace);
    }

    static lemma PendingHasPage(tr: Trace)
      ensures Run(tr).p.pending != [] ==> Run(tr).p.page.Some?
    {
      RunKeepsInv(tr);
    }
  }
}
