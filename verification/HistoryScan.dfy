/**
  The crash-resumable history scan (internal/historyscan/scan.go) as a state machine.

  A state is the durable progress, the items that live workers have recorded but not yet
  acknowledged, and an audit log of what was listed and recorded. Every transaction of the
  worker, every successful `Record` and the death of the workers is one event. An event that is
  not enabled changes nothing, so every sequence of events is a run.
 */
module HistoryScan {
  import opened Options
  import opened Runs
  import opened Instants
  import opened HistoryState

  /** `BackfillConfig` together with the retention the worker is built with. */
  datatype Config = Config(
    lookback: int, overlap: int, rescan: int, retention: int,
    maxPages: nat, detailMax: nat, concurrency: nat, maxPending: nat)
  {
    /** The bounds that internal/config/backfill.go enforces. */
    predicate Valid() {
      && HOUR <= lookback <= 720 * HOUR
      && SECOND <= overlap <= HOUR
      && 5 * SECOND <= rescan <= 720 * HOUR
      && overlap <= lookback <= retention
      && rescan <= lookback
      && 1 <= maxPages <= 32
      && 1 <= concurrency <= 8
      && concurrency <= detailMax <= 1000
      && 1000 <= maxPending <= MAX_PENDING
    }
  }

  /** One complete page: the window that was listed, the items it returned and the time of the listing. */
  datatype Listing = Listing(window: Window, items: seq<Item>, at: int)

  /**
    What an observer would have written down. `recorded` holds (k, item) when a worker's `Record` of
    `item` succeeded while listing k was the open page. `sweepBase` and `resetBase` are the lengths of
    `listings` when the current sweep was planned and when the lookback last changed; `low` is the start
    of the last full sweep; `planNow` is the clock of the last plan that started a sweep;
    `sweepCalls` counts the listings of the current sweep whose answers were committed.
   */
  datatype Audit = Audit(
    listings: seq<Listing>, recorded: set<(nat, Item)>,
    sweepBase: nat, resetBase: nat, low: int, planNow: int, sweepCalls: nat)

  datatype Scan = Scan(p: Progress, inflight: set<Item>, log: Audit)

  const INITIAL: Scan := Scan(FRESH, {}, Audit([], {}, 0, 0, 0, 0, 0))

  datatype Event =
    | Plan(now: int, cfg: Config)
    | Listed(items: seq<Item>, complete: bool, at: int)
    | Recorded(item: Item)
    | Acked(item: Item)
    | Closed
    | Expire(now: int, retention: int)
    | ItemTooOld
    | WorkersGone

  // ---------------------------------------------------------------- transactions

  predicate Active(p: Progress) {
    p.windows != [] || p.pending != [] || p.page.Some?
  }

  /** The first half of the planning transaction: a new lookback forgets everything. */
  function Reconfigured(p: Progress, cfg: Config): Progress {
    if p.lookback == cfg.lookback then p
    else p.(windows := [], pending := [], page := None, block := Unblocked,
            lastCompleted := 0, lastSweep := 0, lookback := cfg.lookback, overlap := cfg.overlap)
  }

  predicate FullSweepDue(p: Progress, now: int, cfg: Config) {
    p.lastCompleted == 0 || now - p.lastSweep >= cfg.rescan
  }

  function SweepStart(p: Progress, now: int, cfg: Config): int {
    if FullSweepDue(p, now, cfg) then Truncate(now - cfg.lookback) else p.lastCompleted - cfg.overlap
  }

  predicate StartsSweep(p: Progress, now: int) {
    p.block == Unblocked && !Active(p) && RoundUp(now) > p.lastCompleted
  }

  /** The second half: an idle, unblocked scan plans `[start, end]`. `lastSweep` moves even if no sweep starts. */
  function Planned(p: Progress, now: int, cfg: Config): Progress {
    if p.block != Unblocked || Active(p) then p
    else
      var q := if FullSweepDue(p, now, cfg) then p.(lastSweep := RoundUp(now)) else p;
      if RoundUp(now) <= p.lastCompleted then q
      else
        var start := SweepStart(p, now, cfg);
        q.(start := start, end := RoundUp(now), windows := [Window(start, RoundUp(now))])
  }

  /** The bisection point with its two fallbacks; `None` is the `ErrSaturated` return without a write. */
  function SplitPoint(w: Window): Option<int> {
    var mid := Truncate(w.start + (w.end - w.start) / 2);
    var mid' := if mid <= w.start then w.start + SECOND else mid;
    if mid' >= w.end then None else Some(mid')
  }

  function Halved(ws: seq<Window>, mid: int): seq<Window>
    requires ws != []
  {
    [Window(mid, ws[0].end), Window(ws[0].start, mid)] + ws[1..]
  }

  /** What the scan commits after `List` answered for `windows[0]`. */
  function AfterListing(p: Progress, items: seq<Item>, complete: bool): Progress
    requires p.windows != []
  {
    var w := p.windows[0];
    if complete then p.(pending := items, page := Some(w), windows := p.windows[1..])
    else if w.end - w.start <= SECOND then p.(block := Saturated)
    else match SplitPoint(w)
      case None => p
      case Some(mid) => p.(windows := Halved(p.windows, mid))
  }

  /** Removing the first pending item with this id. */
  function WithoutId(items: seq<Item>, id: string): seq<Item> {
    if items == [] then []
    else if items[0].id == id then items[1..]
    else [items[0]] + WithoutId(items[1..], id)
  }

  function AfterClose(p: Progress): Progress {
    var q := p.(page := None);
    if p.windows == [] then q.(lastCompleted := p.end) else q
  }

  /** The per-page identity and time check of the scan. */
  predicate PageOk(items: seq<Item>, w: Window) {
    && UniqueIds(items)
    && forall i :: 0 <= i < |items| ==>
         items[i].id != "" && Truncate(w.start) <= items[i].when <= RoundUp(w.end)
  }

  /** A window whose start is before the retention, in whole seconds. */
  predicate WindowExpired(w: Window, now: int, retention: int) {
    w.start < Truncate(now - retention)
  }

  /** The retention test of a cycle: it looks at the open page, else at the newest window. */
  predicate HeadExpired(p: Progress, now: int, retention: int) {
    if p.page.Some? then WindowExpired(p.page.value, now, retention)
    else p.windows != [] && WindowExpired(p.windows[0], now, retention)
  }

  // ---------------------------------------------------------------- events

  /** A worker opens a configured store only with the overlap it was configured with. */
  predicate KeepsOverlap(p: Progress, cfg: Config) {
    p.lookback != 0 ==> p.overlap == cfg.overlap
  }

  predicate Enabled(s: Scan, e: Event) {
    match e
    case Plan(now, cfg) =>
      now > 0 && cfg.Valid() && s.inflight == {} && KeepsOverlap(s.p, cfg)
    case Listed(items, _, at) =>
      at >= s.log.planNow &&
      s.p.block == Unblocked && s.p.page.None? && s.p.pending == [] && s.p.windows != []
          && PageOk(items, s.p.windows[0])
    case Recorded(item) => s.p.block == Unblocked && s.p.page.Some? && item in s.p.pending
    case Acked(item) => item in s.inflight
    case Closed => s.p.block == Unblocked && s.p.page.Some? && s.p.pending == []
    case Expire(now, retention) => s.p.block == Unblocked && s.inflight == {} && HeadExpired(s.p, now, retention)
    case ItemTooOld => s.p.block == Unblocked && s.p.page.Some? && s.inflight == {}
    case WorkersGone => true
  }

  function ReconfiguredAudit(log: Audit, p: Progress, cfg: Config): Audit {
    if p.lookback == cfg.lookback then log
    else log.(resetBase := |log.listings|, sweepBase := |log.listings|)
  }

  function PlannedAudit(log: Audit, p: Progress, now: int, cfg: Config): Audit {
    if !StartsSweep(p, now) then log
    else log.(sweepBase := |log.listings|, sweepCalls := 0, planNow := now,
              low := if FullSweepDue(p, now, cfg) then SweepStart(p, now, cfg) else log.low)
  }

  function Step(s: Scan, e: Event): Scan {
    if !Enabled(s, e) then s
    else match e
      case Plan(now, cfg) =>
        var q := Reconfigured(s.p, cfg);
        s.(p := Planned(q, now, cfg), log := PlannedAudit(ReconfiguredAudit(s.log, s.p, cfg), q, now, cfg))
      case Listed(items, complete, at) =>
        var log := s.log.(sweepCalls := s.log.sweepCalls + 1);
        s.(p := AfterListing(s.p, items, complete),
           log := if complete then log.(listings := log.listings + [Listing(s.p.windows[0], items, at)]) else log)
      case Recorded(item) =>
        var k: nat := if s.log.listings == [] then 0 else |s.log.listings| - 1;
        s.(inflight := s.inflight + {item}, log := s.log.(recorded := s.log.recorded + {(k, item)}))
      case Acked(item) =>
        s.(p := s.p.(pending := WithoutId(s.p.pending, item.id)), inflight := s.inflight - {item})
      case Closed => s.(p := AfterClose(s.p))
      case Expire(_, _) => s.(p := s.p.(block := Expired))
      case ItemTooOld => s.(p := s.p.(block := Expired))
      case WorkersGone => s.(inflight := {})
  }

  type Trace = Past<Event>

  function Run(tr: Trace): Scan {
    match tr
    case Start => INITIAL
    case Then(before, e) => Step(Run(before), e)
  }

  // ---------------------------------------------------------------- coverage

  /** Instant `t` lies in the window of listing `k` and every item of that page was recorded for it. */
  ghost predicate CoveredBy(log: Audit, k: nat, t: int) {
    && k < |log.listings|
    && log.listings[k].window.start <= t <= log.listings[k].window.end
    && forall item :: item in log.listings[k].items ==> (k, item) in log.recorded
  }

  ghost predicate Covered(log: Audit, base: nat, t: int) {
    exists k: nat :: base <= k && CoveredBy(log, k, t)
  }

  ghost predicate CoveredRange(log: Audit, base: nat, lo: int, hi: int) {
    forall t :: lo <= t <= hi ==> Covered(log, base, t)
  }
}
