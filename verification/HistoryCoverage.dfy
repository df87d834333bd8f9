/**
  What every run of the history scan keeps: the unfinished windows form one chain down to the sweep
  start, the finished part of the sweep is covered, completed sweeps leave no gap, and the window
  stack and the number of listings are bounded.
 */
module HistoryCoverage {
  import opened Options
  import opened Runs
  import opened Instants
  import opened HistoryState
  import opened HistoryScan

  // ---------------------------------------------------------------- bisection

  /** Whole seconds touched by a window whose end is aligned. */
  function Seconds(w: Window): int {
    (w.end - Truncate(w.start)) / SECOND
  }

  /**
    Every window longer than a second splits strictly inside, at a whole second, even when its start is
    unaligned: neither fallback of the bisection is reached, and the seconds are halved.
   */
  lemma SplitIsStrict(w: Window)
    requires Aligned(w.end) && w.end - w.start > SECOND
    ensures
      var mid := Truncate(w.start + (w.end - w.start) / 2);
      && SplitPoint(w) == Some(mid)
      && w.start < mid < w.end && Aligned(mid)
      && Seconds(w) >= 2
      && Seconds(Window(w.start, mid)) == Seconds(w) / 2
      && Seconds(Window(mid, w.end)) == Seconds(w) - Seconds(w) / 2
  {
    var a, f, n := Truncate(w.start), w.start % SECOND, Seconds(w);
    assert w.end == a + n * SECOND;
    assert n >= 2;
    var mid := w.start + (w.end - w.start) / 2;
    assert a + n / 2 * SECOND <= mid < a + (n / 2 + 1) * SECOND;
    TruncateUnique(mid, a + n / 2 * SECOND);
    assert (n - n / 2) * SECOND / SECOND == n - n / 2;
  }

  lemma TruncateUnique(t: int, r: int)
    requires Aligned(r) && r <= t < r + SECOND
    ensures Truncate(t) == r
  {
  }

  /** A window of at most a second is a single second, so saturation means one whole second is too full. */
  lemma ShortWindowIsOneSecond(w: Window)
    requires Aligned(w.end) && w.start < w.end
    ensures Seconds(w) >= 1
    ensures w.end - w.start <= SECOND <==> Seconds(w) == 1
  {
    var a, n := Truncate(w.start), Seconds(w);
    assert w.end == a + n * SECOND;
  }

  // ---------------------------------------------------------------- the invariant

  /** The unfinished windows, newest first: the open page, then the stack. */
  function Unfinished(p: Progress): seq<Window> {
    if p.page.Some? then [p.page.value] + p.windows else p.windows
  }

  /** Contiguous descending windows from `hi` down to `lo`, each with an aligned end. */
  predicate Chain(ws: seq<Window>, hi: int, lo: int) {
    if ws == [] then hi == lo
    else ws[0].end == hi && Aligned(hi) && ws[0].start < hi && Chain(ws[1..], ws[0].start, lo)
  }

  /** Everything from here up to the sweep end is finished. */
  function Frontier(p: Progress): int {
    if Unfinished(p) == [] then p.start else Unfinished(p)[0].end
  }

  ghost predicate ChainInv(p: Progress) {
    && (p.page.None? ==> p.pending == [])
    && UniqueIds(p.pending)
    && (Active(p) ==> Chain(Unfinished(p), Frontier(p), p.start) && Frontier(p) <= p.end)
  }

  /** The open page is the last listing, and each of its items is pending or recorded. */
  ghost predicate PageInv(s: Scan) {
    && (forall item :: item in s.inflight ==> item in s.p.pending)
    && (s.p.page.Some? ==>
         var k := |s.log.listings| - 1;
         && s.log.sweepBase <= k
         && s.log.listings[k].window == s.p.page.value
         && (forall item :: item in s.inflight ==> (k, item) in s.log.recorded)
         && (forall item :: item in s.log.listings[k].items ==> item in s.p.pending || (k, item) in s.log.recorded))
  }

  /** The finished part of the current sweep is covered by listings of this sweep. */
  ghost predicate SweepInv(s: Scan) {
    && s.log.resetBase <= s.log.sweepBase <= |s.log.listings|
    && (Active(s.p) && Frontier(s.p) < s.p.end ==> CoveredRange(s.log, s.log.sweepBase, Frontier(s.p), s.p.end))
  }

  /** What completed sweeps have left behind, and how the current one attaches to it. */
  ghost predicate HistoryInv(s: Scan) {
    var p, log := s.p, s.log;
    && p.lastCompleted >= 0 && Aligned(p.lastCompleted)
    && (p.lookback == 0 ==> !Active(p) && p.lastCompleted == 0)
    && p.lastSweep <= (if Active(p) then p.end else p.lastCompleted)
    && (Active(p) ==> p.end > p.lastCompleted && p.end == RoundUp(log.planNow) && log.planNow > 0)
    && (!Active(p) && p.lastCompleted != 0 ==> log.planNow <= p.lastCompleted)
    && (Active(p) || p.lastCompleted != 0 ==> log.low <= Truncate(log.planNow - p.lookback))
    && (Active(p) ==> p.start <= log.low || (p.lastCompleted != 0 && p.start <= p.lastCompleted))
    && (p.lastCompleted != 0 ==> CoveredRange(log, log.resetBase, log.low, p.lastCompleted))
  }

  /** A window with d windows below it has at most 2^(bound - d) seconds. */
  predicate Depths(ws: seq<Window>, bound: nat) {
    ws != [] ==> |ws| - 1 + CeilLog2(Seconds(ws[0])) <= bound && Depths(ws[1..], bound)
  }

  /** Listings still needed in the worst case. */
  function Weight(ws: seq<Window>): int {
    if ws == [] then 0 else 2 * Seconds(ws[0]) - 1 + Weight(ws[1..])
  }

  function SweepSeconds(p: Progress): int {
    Seconds(Window(p.start, p.end))
  }

  ghost predicate BoundInv(s: Scan) {
    Active(s.p) ==>
      && SweepSeconds(s.p) <= 4_194_304
      && Depths(s.p.windows, CeilLog2(SweepSeconds(s.p)))
      && s.log.sweepCalls + Weight(s.p.windows)
           <= 2 * SweepSeconds(s.p) - (if s.p.block == Saturated then 0 else 1)
      && (s.p.block == Saturated ==> s.p.windows != [])
  }

  ghost predicate Inv(s: Scan) {
    ChainInv(s.p) && PageInv(s) && SweepInv(s) && HistoryInv(s) && BoundInv(s)
  }

  // ---------------------------------------------------------------- coverage only grows

  lemma CoverageGrows(log: Audit, log': Audit, base: nat, base': nat, lo: int, hi: int)
    requires CoveredRange(log, base, lo, hi) && base' <= base
    requires log.listings <= log'.listings && log.recorded <= log'.recorded
    ensures CoveredRange(log', base', lo, hi)
  {
    forall t | lo <= t <= hi
      ensures Covered(log', base', t)
    {
      assert Covered(log, base, t);
      var k: nat :| base <= k && CoveredBy(log, k, t);
      assert log'.listings[k] == log.listings[k];
      assert CoveredBy(log', k, t);
    }
  }

  lemma CoverageJoins(log: Audit, base: nat, lo: int, mid: int, mid': int, hi: int)
    requires CoveredRange(log, base, lo, mid) && CoveredRange(log, base, mid', hi) && mid' <= mid + 1
    ensures CoveredRange(log, base, lo, hi)
  {
  }

  // ---------------------------------------------------------------- one lemma per event

  lemma ReconfigureKeepsInv(s: Scan, cfg: Config)
    requires Inv(s) && cfg.Valid() && s.inflight == {}
    ensures Inv(s.(p := Reconfigured(s.p, cfg), log := ReconfiguredAudit(s.log, s.p, cfg)))
  {
  }

  lemma PlanKeepsInv(s: Scan, now: int, cfg: Config)
    requires Inv(s) && now > 0 && cfg.Valid() && s.inflight == {} && s.p.lookback == cfg.lookback
    ensures Inv(s.(p := Planned(s.p, now, cfg), log := PlannedAudit(s.log, s.p, now, cfg)))
  {
    if StartsSweep(s.p, now) {
      SweepStartKeepsInv(s, now, cfg);
    } else {
      IdlePlanKeepsInv(s, now, cfg);
    }
  }

  lemma IdlePlanKeepsInv(s: Scan, now: int, cfg: Config)
    requires Inv(s) && now > 0 && cfg.Valid() && s.inflight == {} && !StartsSweep(s.p, now)
    ensures Inv(s.(p := Planned(s.p, now, cfg), log := PlannedAudit(s.log, s.p, now, cfg)))
  {
    var p := Planned(s.p, now, cfg);
    assert PlannedAudit(s.log, s.p, now, cfg) == s.log;
    assert p == s.p.(lastSweep := p.lastSweep);
    assert Unfinished(p) == Unfinished(s.p);
  }

  /** A sweep planned after the last completed one reaches no further back. */
  lemma PlansMoveForward(planNow: int, lastCompleted: int, now: int, lookback: int)
    requires planNow <= lastCompleted < RoundUp(now) && Aligned(lastCompleted)
    ensures planNow <= now && Truncate(planNow - lookback) <= Truncate(now - lookback)
  {
    AlignedGap(lastCompleted, RoundUp(now));
    TruncateMonotone(planNow - lookback, now - lookback);
  }

  lemma AlignedGap(a: int, b: int)
    requires Aligned(a) && Aligned(b) && a < b
    ensures a + SECOND <= b
  {
  }

  lemma SweepStartKeepsInv(s: Scan, now: int, cfg: Config)
    requires Inv(s) && now > 0 && cfg.Valid() && s.inflight == {} && s.p.lookback == cfg.lookback
    requires StartsSweep(s.p, now)
    ensures Inv(s.(p := Planned(s.p, now, cfg), log := PlannedAudit(s.log, s.p, now, cfg)))
  {
    var t := s.(p := Planned(s.p, now, cfg), log := PlannedAudit(s.log, s.p, now, cfg));
    var w := Window(SweepStart(s.p, now, cfg), RoundUp(now));
    SweepIsPlanned(s.p, now, cfg);
    SweepIsNotEmpty(s.p, now, cfg);
    assert ChainInv(t.p) && BoundInv(t) by {
      OneWindow(w);
      SweepIsShort(s.p, now, cfg);
    }
    assert HistoryInv(t) by {
      if s.p.lastCompleted != 0 {
        PlansMoveForward(s.log.planNow, s.p.lastCompleted, now, cfg.lookback);
        CoverageGrows(s.log, t.log, s.log.resetBase, t.log.resetBase, s.log.low, s.p.lastCompleted);
      }
    }
  }

  lemma OneWindow(w: Window)
    requires Aligned(w.end) && w.start < w.end
    ensures Chain([w], w.end, w.start) && Depths([w], CeilLog2(Seconds(w))) && Weight([w]) == 2 * Seconds(w) - 1
  {
    assert [w][1..] == [];
  }

  lemma SweepIsPlanned(p: Progress, now: int, cfg: Config)
    requires StartsSweep(p, now)
    ensures
      var start, end := SweepStart(p, now, cfg), RoundUp(now);
      Planned(p, now, cfg) == p.(lastSweep := if FullSweepDue(p, now, cfg) then end else p.lastSweep,
                                 start := start, end := end, windows := [Window(start, end)])
  {
  }

  lemma SweepIsNotEmpty(p: Progress, now: int, cfg: Config)
    requires cfg.Valid() && p.lastCompleted < RoundUp(now)
    ensures SweepStart(p, now, cfg) < RoundUp(now)
  {
  }

  /** No planned sweep spans more than 2^22 seconds. */
  lemma SweepIsShort(p: Progress, now: int, cfg: Config)
    requires cfg.Valid() && p.lastSweep <= p.lastCompleted
    ensures Seconds(Window(SweepStart(p, now, cfg), RoundUp(now))) <= 4_194_304
  {
  }

  lemma OpenedPageKeepsInv(s: Scan, e: Event)
    requires Inv(s) && e.Listed? && e.complete && Enabled(s, e)
    ensures Inv(Step(s, e))
  {
    var p, t := s.p, Step(s, e);
    ShortWindowIsOneSecond(p.windows[0]);
    assert Unfinished(t.p) == p.windows;
    AuditGrowthKeepsCoverage(s, s.(log := t.log));
  }

  lemma SaturationKeepsInv(s: Scan, e: Event)
    requires Inv(s) && e.Listed? && !e.complete && Enabled(s, e)
    requires s.p.windows[0].end - s.p.windows[0].start <= SECOND
    ensures Inv(Step(s, e))
  {
    AuditGrowthKeepsCoverage(s, s.(log := Step(s, e).log));
  }

  lemma SplitKeepsInv(s: Scan, e: Event)
    requires Inv(s) && e.Listed? && !e.complete && Enabled(s, e)
    requires s.p.windows[0].end - s.p.windows[0].start > SECOND
    ensures Inv(Step(s, e))
  {
    var p, w, log := s.p, s.p.windows[0], s.log.(sweepCalls := s.log.sweepCalls + 1);
    SplitIsStrict(w);
    var mid := SplitPoint(w).value;
    var t := Scan(p.(windows := Halved(p.windows, mid)), s.inflight, log);
    AuditGrowthKeepsCoverage(s, s.(log := log));
    assert Inv(t) by {
      HalvedKeepsInv(s.(log := log));
    }
    assert Step(s, e) == t;
  }

  /** The listing that asked for the split is already counted. */
  lemma HalvedKeepsInv(s: Scan)
    requires s.p.windows != [] && s.p.page.None? && s.p.block == Unblocked
    requires ChainInv(s.p) && PageInv(s) && SweepInv(s) && HistoryInv(s) && SweepSeconds(s.p) <= 4_194_304
    requires Depths(s.p.windows, CeilLog2(SweepSeconds(s.p)))
    requires s.log.sweepCalls + Weight(s.p.windows) <= 2 * SweepSeconds(s.p)
    requires s.p.windows[0].end - s.p.windows[0].start > SECOND
    ensures SplitPoint(s.p.windows[0]).Some?
    ensures Inv(s.(p := s.p.(windows := Halved(s.p.windows, SplitPoint(s.p.windows[0]).value))))
  {
    var ws := s.p.windows;
    HalvingKeepsBounds(ws, CeilLog2(SweepSeconds(s.p)));
    var mid := SplitPoint(ws[0]).value;
    assert Chain(Halved(ws, mid), ws[0].end, s.p.start) by {
      assert Chain(ws, ws[0].end, s.p.start);
      HalvingKeepsChain(ws, ws[0].end, s.p.start, mid);
    }
    SplitCommitKeepsInv(s, mid);
  }

  lemma SplitCommitKeepsInv(s: Scan, mid: int)
    requires s.p.windows != [] && s.p.page.None? && s.p.block == Unblocked
    requires ChainInv(s.p) && PageInv(s) && SweepInv(s) && HistoryInv(s) && SweepSeconds(s.p) <= 4_194_304
    requires Chain(Halved(s.p.windows, mid), s.p.windows[0].end, s.p.start)
    requires Depths(Halved(s.p.windows, mid), CeilLog2(SweepSeconds(s.p)))
    requires s.log.sweepCalls + Weight(Halved(s.p.windows, mid)) <= 2 * SweepSeconds(s.p) - 1
    ensures Inv(s.(p := s.p.(windows := Halved(s.p.windows, mid))))
  {
  }

  lemma HalvingKeepsChain(ws: seq<Window>, hi: int, lo: int, mid: int)
    requires ws != [] && Chain(ws, hi, lo) && ws[0].start < mid < hi && Aligned(mid)
    ensures Chain(Halved(ws, mid), hi, lo)
  {
    var lower := Window(ws[0].start, mid);
    assert Halved(ws, mid)[1..] == [lower] + ws[1..];
    assert ([lower] + ws[1..])[1..] == ws[1..];
  }

  lemma HalvingKeepsBounds(ws: seq<Window>, bound: nat)
    requires ws != [] && Aligned(ws[0].end) && ws[0].end - ws[0].start > SECOND
    requires Depths(ws, bound)
    ensures SplitPoint(ws[0]).Some?
    ensures
      var mid := SplitPoint(ws[0]).value;
      && ws[0].start < mid < ws[0].end && Aligned(mid)
      && Depths(Halved(ws, mid), bound)
      && Weight(Halved(ws, mid)) == Weight(ws) - 1
  {
    SplitIsStrict(ws[0]);
    var mid := SplitPoint(ws[0]).value;
    var n := Seconds(ws[0]);
    var upper, lower := Window(mid, ws[0].end), Window(ws[0].start, mid);
    CeilLog2Monotone(n / 2, (n + 1) / 2);
    assert Halved(ws, mid)[1..] == [lower] + ws[1..];
    assert ([lower] + ws[1..])[1..] == ws[1..];
  }

  lemma RecordedKeepsInv(s: Scan, e: Event)
    requires Inv(s) && e.Recorded? && Enabled(s, e)
    ensures Inv(Step(s, e))
  {
    AuditGrowthKeepsCoverage(s, Step(s, e));
  }

  lemma AuditGrowthKeepsCoverage(s: Scan, t: Scan)
    requires SweepInv(s) && HistoryInv(s) && t.p == s.p
    requires t.log == s.log.(listings := t.log.listings, recorded := t.log.recorded, sweepCalls := t.log.sweepCalls)
    requires s.log.listings <= t.log.listings && s.log.recorded <= t.log.recorded
    ensures SweepInv(t) && HistoryInv(t)
  {
    if Active(s.p) && Frontier(s.p) < s.p.end {
      CoverageGrows(s.log, t.log, s.log.sweepBase, s.log.sweepBase, Frontier(s.p), s.p.end);
    }
    if s.p.lastCompleted != 0 {
      CoverageGrows(s.log, t.log, s.log.resetBase, s.log.resetBase, s.log.low, s.p.lastCompleted);
    }
  }

  /** With unique ids, removing by id removes exactly that item. */
  lemma {:induction false} WithoutIdRemovesOne(items: seq<Item>, item: Item)
    requires UniqueIds(items) && item in items
    ensures UniqueIds(WithoutId(items, item.id))
    ensures forall x :: x in WithoutId(items, item.id) <==> x in items && x != item
  {
    if items[0].id == item.id {
      assert items[0] == item;
      assert forall x :: x in items <==> x == items[0] || x in items[1..];
      assert item !in items[1..];
    } else {
      var rest := WithoutId(items[1..], item.id);
      WithoutIdRemovesOne(items[1..], item);
      var r := [items[0]] + rest;
      assert forall x :: x in items <==> x == items[0] || x in items[1..];
      forall i, j | 0 <= i < j < |r|
        ensures r[i].id != r[j].id
      {
        if i == 0 {
          assert r[j] in rest;
        } else {
          assert r[i] == rest[i - 1] && r[j] == rest[j - 1];
        }
      }
    }
  }

  lemma AckedKeepsInv(s: Scan, e: Event)
    requires Inv(s) && e.Acked? && Enabled(s, e)
    ensures Inv(Step(s, e))
  {
    WithoutIdRemovesOne(s.p.pending, e.item);
    assert s.p.page.Some?;
    var t := Step(s, e);
    assert Unfinished(t.p) == Unfinished(s.p);
  }

  lemma ClosedKeepsInv(s: Scan, e: Event)
    requires Inv(s) && e.Closed? && Enabled(s, e)
    ensures Inv(Step(s, e))
    ensures s.p.windows == [] ==> CoveredRange(s.log, s.log.sweepBase, s.p.start, s.p.end)
  {
    var p, t := s.p, Step(s, e);
    var page, k: nat := p.page.value, |s.log.listings| - 1;
    assert Unfinished(p)[1..] == p.windows;
    assert Chain(p.windows, page.start, p.start);
    assert CoveredRange(s.log, s.log.sweepBase, page.start, page.end) by {
      forall x | page.start <= x <= page.end ensures Covered(s.log, s.log.sweepBase, x) {
        assert CoveredBy(s.log, k, x);
      }
    }
    if page.end < p.end {
      CoverageJoins(s.log, s.log.sweepBase, page.start, page.end, page.end, p.end);
    }
    assert CoveredRange(s.log, s.log.sweepBase, page.start, p.end);
    if p.windows == [] {
      assert page.start == p.start;
      CoverageGrows(s.log, s.log, s.log.sweepBase, s.log.resetBase, p.start, p.end);
      if p.lastCompleted != 0 {
        if p.start <= p.lastCompleted {
          CoverageJoins(s.log, s.log.resetBase, s.log.low, p.lastCompleted, p.start, p.end);
        }
      }
    }
  }

  lemma StepKeepsInv(s: Scan, e: Event)
    requires Inv(s)
    ensures Inv(Step(s, e))
  {
    if Enabled(s, e) {
      match e
      case Plan(now, cfg) =>
        ReconfigureKeepsInv(s, cfg);
        PlanKeepsInv(s.(p := Reconfigured(s.p, cfg), log := ReconfiguredAudit(s.log, s.p, cfg)), now, cfg);
      case Listed(_, complete, _) =>
        if complete {
          OpenedPageKeepsInv(s, e);
        } else if s.p.windows[0].end - s.p.windows[0].start <= SECOND {
          SaturationKeepsInv(s, e);
        } else {
          SplitKeepsInv(s, e);
        }
      case Recorded(_) => RecordedKeepsInv(s, e);
      case Acked(_) => AckedKeepsInv(s, e);
      case Closed => ClosedKeepsInv(s, e);
      case Expire(_, _) =>
        assert Unfinished(Step(s, e).p) == Unfinished(s.p);
      case ItemTooOld =>
        assert Unfinished(Step(s, e).p) == Unfinished(s.p);
      case WorkersGone =>
    }
  }

  // ---------------------------------------------------------------- theorems over all runs

  lemma {:induction false} RunKeepsInv(tr: Trace)
    ensures Inv(Run(tr))
  {
    match tr
    case Start =>
    case Then(before, e) =>
      RunKeepsInv(before);
      StepKeepsInv(Run(before), e);
  }

  /**
    Coverage. Whenever an event of any run moves `lastCompleted`, it moves to the sweep end and every
    instant of `[start, end]` lies in a window that was listed complete during this very sweep and whose
    every item was recorded after that listing. The one exception is the reset by a new lookback.
   */
  lemma CompletionMeansCoverage(tr: Trace, e: Event)
    requires Step(Run(tr), e).p.lastCompleted != Run(tr).p.lastCompleted
    requires !(e.Plan? && e.cfg.lookback != Run(tr).p.lookback)
    ensures
      var s, t := Run(tr), Step(Run(tr), e);
      && t.p.lastCompleted == s.p.end
      && CoveredRange(t.log, s.log.sweepBase, s.p.start, s.p.end)
  {
    RunKeepsInv(tr);
    ClosedKeepsInv(Run(tr), e);
  }

  /**
    No gaps between sweeps. After any run, every instant from `lookback` before the last plan up to
    `lastCompleted` is covered by listings made since the lookback was configured.
   */
  lemma NoGapsBetweenSweeps(tr: Trace)
    ensures
      var s := Run(tr);
      s.p.lastCompleted != 0 ==> CoveredRange(s.log, s.log.resetBase, s.log.planNow - s.p.lookback, s.p.lastCompleted)
  {
    RunKeepsInv(tr);
  }

  lemma {:induction false} DepthsBoundLength(ws: seq<Window>, bound: nat)
    requires Depths(ws, bound)
    ensures |ws| <= 1 + bound
  {
  }

  /** The window stack holds at most 1 + ceil(log2 n) entries, hence at most 23 and never the cap of 4096. */
  lemma WindowStackIsLogarithmic(tr: Trace)
    ensures
      var p := Run(tr).p;
      && (p.windows != [] ==> |p.windows| <= 1 + CeilLog2(SweepSeconds(p)))
      && |p.windows| <= 23 < MAX_WINDOWS
  {
    RunKeepsInv(tr);
    var p := Run(tr).p;
    if p.windows != [] {
      DepthsBoundLength(p.windows, CeilLog2(SweepSeconds(p)));
      TwoToThe22();
      CeilLog2Bound(SweepSeconds(p), 22);
    }
  }

  /** An answered sweep of n seconds makes at most 2n - 1 listings, and every listing costs one of them. */
  lemma SweepEndsWithinTwiceItsSeconds(tr: Trace)
    ensures
      var s := Run(tr);
      && (Active(s.p) ==> s.log.sweepCalls <= 2 * SweepSeconds(s.p) - 1)
      && (s.p.windows != [] && s.p.block != Saturated ==> s.log.sweepCalls < 2 * SweepSeconds(s.p) - 1)
  {
    RunKeepsInv(tr);
    var s := Run(tr);
    if Active(s.p) {
      if s.p.page.Some? {
        assert Unfinished(s.p)[1..] == s.p.windows;
        ChainWeighs(s.p.windows, s.p.page.value.start, s.p.start);
      } else {
        ChainWeighs(s.p.windows, Frontier(s.p), s.p.start);
      }
    }
  }

  lemma {:induction false} ChainWeighs(ws: seq<Window>, hi: int, lo: int)
    requires Chain(ws, hi, lo)
    ensures Weight(ws) >= |ws|
  {
    if ws != [] {
      ShortWindowIsOneSecond(ws[0]);
      ChainWeighs(ws[1..], ws[0].start, lo);
    }
  }

  /** The largest gap an incremental sweep can face, `rescan`, still lets it reach back `overlap` within retention. */
  predicate RetentionReaches(cfg: Config) {
    Truncate(cfg.rescan - 1 - cfg.retention) <= -cfg.overlap
  }

  /** In particular whenever `rescan + overlap <= retention`. */
  lemma SimpleRetentionCondition(cfg: Config)
    requires cfg.rescan + cfg.overlap <= cfg.retention
    ensures RetentionReaches(cfg)
  {
  }

  /** A full sweep never starts out expired, and an incremental one does not either when the retention reaches. */
  lemma PlanReachesBack(p: Progress, now: int, cfg: Config)
    requires cfg.Valid() && StartsSweep(p, now) && Aligned(p.lastCompleted) && p.lastSweep <= p.lastCompleted
    requires FullSweepDue(p, now, cfg) || RetentionReaches(cfg)
    ensures Planned(p, now, cfg).start >= Truncate(now - cfg.retention)
  {
    if FullSweepDue(p, now, cfg) {
      TruncateMonotone(now - cfg.retention, now - cfg.lookback);
    } else {
      var slack := cfg.rescan - 1 - cfg.retention;
      TruncateMonotone(now - cfg.retention, p.lastCompleted + slack);
      TruncateShifts(p.lastCompleted, slack);
    }
  }

  lemma PlannedSweepIsWithinRetention(tr: Trace, now: int, cfg: Config)
    requires now > 0 && cfg.Valid()
    requires
      var q := Reconfigured(Run(tr).p, cfg);
      StartsSweep(q, now) && (FullSweepDue(q, now, cfg) || RetentionReaches(cfg))
    ensures Planned(Reconfigured(Run(tr).p, cfg), now, cfg).start >= Truncate(now - cfg.retention)
  {
    RunKeepsInv(tr);
    PlanReachesBack(Reconfigured(Run(tr).p, cfg), now, cfg);
  }

  lemma TruncateShifts(a: int, t: int)
    requires Aligned(a)
    ensures Truncate(a + t) == a + Truncate(t)
  {
    TruncateUnique(a + t, a + Truncate(t));
  }

  lemma TruncateMonotone(t: int, u: int)
    requires t <= u
    ensures Truncate(t) <= Truncate(u)
  {
  }

  /**
    The condition is exact: under any other valid configuration some run completes a sweep and then plans
    an incremental one that is expired before its first listing, and so blocks.
   */
  lemma {:induction false} IncrementalSweepCanStartExpired(cfg: Config) returns (tr: Trace, now: int)
    requires cfg.Valid() && !RetentionReaches(cfg)
    ensures now > 0 && StartsSweep(Run(tr).p, now) && Run(tr).p.lookback == cfg.lookback
    ensures Planned(Run(tr).p, now, cfg).start < Truncate(now - cfg.retention)
  {
    var base := 10_000 * HOUR;
    var e0, e1, e2 := Plan(base, cfg), Listed([], true, base), Closed;
    tr, now := Then(Then(Then(Start, e0), e1), e2), base + cfg.rescan - 1;
    TruncateUnique(base + SECOND - 1, base);
    var w := Window(Truncate(base - cfg.lookback), base);
    var s1 := Step(INITIAL, e0);
    var s2 := Step(s1, e1);
    var s3 := Step(s2, e2);
    assert s1.p == Progress(cfg.lookback, cfg.overlap, w.start, base, 0, base, [w], [], None, Unblocked);
    assert s2.p == s1.p.(pending := [], page := Some(w), windows := []) by {
      assert Enabled(s1, e1) && [w][1..] == [];
    }
    assert s3.p == s2.p.(page := None, lastCompleted := base);
    assert Run(Then(Start, e0)) == s1;
    assert Run(tr) == s3;
    var slack := cfg.rescan - 1 - cfg.retention;
    TruncateShifts(base, slack);
  }

  /** Once blocked, nothing but a new lookback changes the durable progress or the audit log. */
  lemma {:induction false} BlockedScanStandsStill(s: Scan, es: seq<Event>)
    requires s.p.block != Unblocked && s.inflight == {}
    requires forall i :: 0 <= i < |es| && es[i].Plan? ==> es[i].cfg.lookback == s.p.lookback
    ensures RunFrom(s, es) == s
  {
    if es != [] {
      assert Step(s, es[0]) == s;
      BlockedScanStandsStill(s, es[1..]);
    }
  }

  function RunFrom(s: Scan, es: seq<Event>): Scan
    decreases |es|
  {
    if es == [] then s else RunFrom(Step(s, es[0]), es[1..])
  }

  /** A block is only ever set when no worker is live. */
  lemma {:induction false} BlockedMeansNoWorkers(tr: Trace)
    ensures Run(tr).p.block != Unblocked ==> Run(tr).inflight == {}
  {
    if tr.Then? {
      BlockedMeansNoWorkers(tr.before);
      RunKeepsInv(tr.before);
    }
  }
}
