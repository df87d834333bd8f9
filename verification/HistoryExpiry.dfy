/**
  When a planned sweep runs out of retention (internal/historyscan/scan.go): the test looks at one window at a time,
  newest first, and the oldest one decides how long the sweep has.
 */
module HistoryExpiry {
  import opened Runs
  import opened Instants
  import opened HistoryState
  import opened HistoryScan
  import opened HistoryCoverage

  /** Some window of the current sweep that is not finished yet is before the retention. */
  ghost predicate SomeExpired(p: Progress, now: int, retention: int) {
    exists i :: 0 <= i < |Unfinished(p)| && WindowExpired(Unfinished(p)[i], now, retention)
  }

  lemma ExpiredByWholeSeconds(start: int, now: int, retention: int)
    ensures start < Truncate(now - retention) <==> now >= Truncate(start) + SECOND + retention
  {
    var x, a := now - retention, Truncate(start);
    if x >= a + SECOND {
      TruncateMonotone(a + SECOND, x);
      TruncateUnique(a + SECOND, a + SECOND);
    } else if Truncate(x) > start {
      AlignedGap(a, Truncate(x));
    }
  }

  /** The windows of a chain start at its lower end or above, and the last one starts at it. */
  lemma {:induction false} ChainStarts(ws: seq<Window>, hi: int, lo: int)
    requires Chain(ws, hi, lo)
    ensures lo <= hi && forall i :: 0 <= i < |ws| ==> lo <= ws[i].start
    ensures ws != [] ==> ws[|ws| - 1].start == lo
  {
    if ws != [] {
      var rest := ws[1..];
      ChainStarts(rest, ws[0].start, lo);
      assert forall i :: 0 < i < |ws| ==> ws[i] == rest[i - 1];
    }
  }

  /**
    Exactly how long a sweep has: in every run, no unfinished window of the current sweep is expired at `now` if and
    only if `now` is before the whole second of the sweep start plus one second plus the retention.
   */
  lemma {:induction false} SweepSurvivesExactlyUntil(tr: Trace, now: int, retention: int)
    requires Active(Run(tr).p)
    ensures !SomeExpired(Run(tr).p, now, retention) <==> now < Truncate(Run(tr).p.start) + SECOND + retention
  {
    var p := Run(tr).p;
    var ws := Unfinished(p);
    RunKeepsInv(tr);
    ChainStarts(ws, Frontier(p), p.start);
    ExpiredByWholeSeconds(p.start, now, retention);
    if SomeExpired(p, now, retention) {
      var i :| 0 <= i < |ws| && WindowExpired(ws[i], now, retention);
      assert p.start <= ws[i].start;
    } else {
      assert !WindowExpired(ws[|ws| - 1], now, retention);
    }
  }

  /** Until then the retention test cannot block the scan. */
  lemma {:induction false} SurvivingSweepIsNotExpelled(tr: Trace, now: int, retention: int)
    requires Active(Run(tr).p) && now < Truncate(Run(tr).p.start) + SECOND + retention
    ensures !HeadExpired(Run(tr).p, now, retention)
  {
    SweepSurvivesExactlyUntil(tr, now, retention);
    HeadIsUnfinished(Run(tr).p, now, retention);
  }

  /** The test looks at the newest unfinished window: the open page if there is one. */
  lemma HeadIsNewestUnfinished(p: Progress, now: int, retention: int)
    ensures HeadExpired(p, now, retention) <==>
            Unfinished(p) != [] && Unfinished(p)[0].start < Truncate(now - retention)
  {
  }

  lemma HeadIsUnfinished(p: Progress, now: int, retention: int)
    ensures HeadExpired(p, now, retention) ==> SomeExpired(p, now, retention)
  {
    if HeadExpired(p, now, retention) {
      assert WindowExpired(Unfinished(p)[0], now, retention);
    }
  }

  /** A full sweep planned at P survives every cycle up to P plus what the retention exceeds the lookback by. */
  lemma {:induction false} FullSweepSurvives(tr: Trace, planned: int, lookback: int, now: int, retention: int)
    requires Active(Run(tr).p) && Run(tr).p.start == Truncate(planned - lookback)
    requires now <= planned + retention - lookback
    ensures !HeadExpired(Run(tr).p, now, retention)
  {
    TruncateUnique(Run(tr).p.start, Run(tr).p.start);
    SurvivingSweepIsNotExpelled(tr, now, retention);
  }

  /**
    And not a second longer: under every accepted configuration some run plans its first sweep so that it starts on a
    whole second, is expelled by a cycle one second after that time, and stays blocked whatever happens then.
   */
  lemma {:induction false} FullSweepCanBeExpelled(cfg: Config, es: seq<Event>)
      returns (tr: Trace, planned: int, now: int)
    requires cfg.Valid() && forall i :: 0 <= i < |es| && es[i].Plan? ==> es[i].cfg.lookback == cfg.lookback
    ensures tr == Then(Then(Start, Plan(planned, cfg)), Expire(now, cfg.retention))
    ensures planned > 0 && FullSweepDue(INITIAL.p, planned, cfg)
      && now == planned + cfg.retention - cfg.lookback + SECOND
    ensures Run(tr).p.block == Expired && RunFrom(Run(tr), es) == Run(tr)
  {
    var low := 10_000 * HOUR;
    planned, now := low + cfg.lookback, low + SECOND + cfg.retention;
    var t0: Trace := Start;
    var t1 := Then(t0, Plan(planned, cfg));
    tr := Then(t1, Expire(now, cfg.retention));
    TruncateUnique(planned - cfg.lookback, low);
    var w := Window(low, RoundUp(planned));
    var s1 := Step(INITIAL, Plan(planned, cfg));
    assert s1.p.windows == [w] && s1.p.page.None? && s1.p.block == Unblocked && s1.p.lookback == cfg.lookback;
    assert Run(t0) == INITIAL && Run(t1) == s1;
    ExpiredByWholeSeconds(low, now, cfg.retention);
    assert HeadExpired(s1.p, now, cfg.retention);
    BlockedScanStandsStill(Run(tr), es);
  }
}
