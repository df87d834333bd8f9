/**
  What a poll plans (internal/historyscan/scan.go), told from the durable fields: a changed lookback starts all over,
  a scan that is busy or blocked keeps its plan, and an idle one plans the next sweep up to the next whole second.
 */
module HistoryPlanning {
  import opened Options
  import opened Runs
  import opened Instants
  import opened HistoryState
  import opened HistoryScan

  /** The whole second at or before `t`. */
  predicate IsSecondBefore(t: int, r: int) {
    r % SECOND == 0 && r <= t < r + SECOND
  }

  /** The whole second at or after `t`. */
  predicate IsSecondAfter(t: int, r: int) {
    r % SECOND == 0 && r - SECOND < t <= r
  }

  lemma OnlySecondBefore(t: int, r: int)
    requires IsSecondBefore(t, r)
    ensures r == Truncate(t)
  {
  }

  lemma OnlySecondAfter(t: int, r: int)
    requires IsSecondAfter(t, r)
    ensures r == RoundUp(t)
  {
    OnlySecondBefore(t + SECOND - 1, r);
  }

  predicate CanPlan(s: Scan, now: int, cfg: Config) {
    now > 0 && cfg.Valid() && s.inflight == {} && KeepsOverlap(s.p, cfg)
  }

  /** A new lookback unblocks the scan, forgets all progress and starts a full sweep. */
  lemma NewLookbackStartsOver(tr: Trace, now: int, cfg: Config, start: int, end: int)
    requires CanPlan(Run(tr), now, cfg) && Run(tr).p.lookback != cfg.lookback
    requires IsSecondBefore(now - cfg.lookback, start) && IsSecondAfter(now, end)
    ensures Run(Then(tr, Plan(now, cfg))).p ==
            Progress(cfg.lookback, cfg.overlap, start, end, 0, end, [Window(start, end)], [], None, Unblocked)
  {
    OnlySecondBefore(now - cfg.lookback, start);
    OnlySecondAfter(now, end);
  }

  /** Under the same lookback a scan that is blocked, or has anything unfinished, keeps its plan. */
  lemma UnfinishedScanKeepsItsPlan(tr: Trace, now: int, cfg: Config)
    requires
      var p := Run(tr).p;
      p.lookback == cfg.lookback && (p.block != Unblocked || p.windows != [] || p.pending != [] || p.page.Some?)
    ensures Run(Then(tr, Plan(now, cfg))).p == Run(tr).p
  {
  }

  /**
    Otherwise a full sweep is due if none was completed yet or the last full one is the rescan interval ago; it reaches
    one lookback back. Any other sweep reaches back by the overlap behind the last completed one. Nothing is planned
    before the clock has passed the last-completed time.
   */
  lemma IdleScanPlansNextSweep(tr: Trace, now: int, cfg: Config, low: int, end: int)
    requires CanPlan(Run(tr), now, cfg)
    requires
      var p := Run(tr).p;
      p.lookback == cfg.lookback && p.block == Unblocked && p.windows == [] && p.pending == [] && p.page.None?
    requires IsSecondBefore(now - cfg.lookback, low) && IsSecondAfter(now, end)
    ensures
      var p, p' := Run(tr).p, Run(Then(tr, Plan(now, cfg))).p;
      var full := p.lastCompleted == 0 || p.lastSweep + cfg.rescan <= now;
      var start := if full then low else p.lastCompleted - cfg.overlap;
      && p'.lastSweep == (if full then end else p.lastSweep)
      && (end <= p.lastCompleted ==> p' == p.(lastSweep := p'.lastSweep))
      && (end > p.lastCompleted ==>
            p' == p.(lastSweep := p'.lastSweep, start := start, end := end, windows := [Window(start, end)]))
  {
    OnlySecondBefore(now - cfg.lookback, low);
    OnlySecondAfter(now, end);
  }
}
