/**
  What the overlap of incremental sweeps is for: a record that becomes visible upstream only after its own time is
  still recorded, if the delay is within the overlap.
 */
module HistoryOverlap {
  import opened Instants
  import opened HistoryState
  import opened HistoryScan
  import opened HistoryCoverage
  import opened HistoryPages

  /**
    Instant `t` lies in the window of listing `k`, made after `since`, and every item of that page was recorded for
    it.
   */
  ghost predicate LateCoveredBy(log: Audit, k: nat, t: int, since: int) {
    CoveredBy(log, k, t) && log.listings[k].at > since
  }

  ghost predicate LateCovered(log: Audit, base: nat, t: int, since: int) {
    exists k: nat :: base <= k && LateCoveredBy(log, k, t, since)
  }

  /** How late a record of time `t` may become visible. */
  function Grace(t: int, overlap: int): int {
    t + overlap - SECOND
  }

  /** Every instant from `lo` to `hi` was listed again after its grace. */
  ghost predicate LateRange(log: Audit, base: nat, lo: int, hi: int, overlap: int) {
    forall t :: lo <= t <= hi ==> LateCovered(log, base, t, Grace(t, overlap))
  }

  /** The listings of the current sweep came after its plan. */
  ghost predicate ClockInv(s: Scan) {
    forall k :: s.log.sweepBase <= k < |s.log.listings| ==> s.log.listings[k].at >= s.log.planNow
  }

  /** The current sweep reaches back to where full sweeps start, or by the overlap behind the last completed one. */
  ghost predicate ReachInv(s: Scan) {
    Active(s.p) ==> s.p.start <= s.log.low || (s.p.lastCompleted != 0 && s.p.start + s.p.overlap <= s.p.lastCompleted)
  }

  ghost predicate LateInv(s: Scan) {
    s.p.lastCompleted != 0 ==>
      LateRange(s.log, s.log.resetBase, s.log.low, s.p.lastCompleted - s.p.overlap, s.p.overlap)
  }

  predicate OverlapIsSet(p: Progress) {
    p.lookback != 0 ==> p.overlap >= 0
  }

  ghost predicate OverlapInv(s: Scan) {
    ClockInv(s) && ReachInv(s) && LateInv(s)
  }

  lemma LateGrows(log: Audit, log': Audit, base: nat, lo: int, lo': int, hi: int, overlap: int)
    requires LateRange(log, base, lo, hi, overlap) && lo <= lo'
    requires log.listings <= log'.listings && log.recorded <= log'.recorded
    ensures LateRange(log', base, lo', hi, overlap)
  {
    forall t | lo' <= t <= hi
      ensures LateCovered(log', base, t, Grace(t, overlap))
    {
      assert LateCovered(log, base, t, Grace(t, overlap));
      var k: nat :| base <= k && LateCoveredBy(log, k, t, Grace(t, overlap));
      assert log'.listings[k] == log.listings[k];
      assert LateCoveredBy(log', k, t, Grace(t, overlap));
    }
  }

  /** A completed sweep lists everything up to its end less the overlap after its grace. */
  lemma SweepIsLate(s: Scan, hi: int)
    requires ClockInv(s) && s.p.end == RoundUp(s.log.planNow) && hi + s.p.overlap <= s.p.end && s.p.overlap >= 0
    requires CoveredRange(s.log, s.log.sweepBase, s.p.start, s.p.end) && s.log.resetBase <= s.log.sweepBase
    ensures LateRange(s.log, s.log.resetBase, s.p.start, hi, s.p.overlap)
  {
    forall t | s.p.start <= t <= hi
      ensures LateCovered(s.log, s.log.resetBase, t, Grace(t, s.p.overlap))
    {
      assert Covered(s.log, s.log.sweepBase, t);
      var k: nat :| s.log.sweepBase <= k && CoveredBy(s.log, k, t);
      assert LateCoveredBy(s.log, k, t, Grace(t, s.p.overlap));
    }
  }

  lemma LateJoins(log: Audit, base: nat, lo: int, mid: int, mid': int, hi: int, overlap: int)
    requires LateRange(log, base, lo, mid, overlap) && LateRange(log, base, mid', hi, overlap) && mid' <= mid + 1
    ensures LateRange(log, base, lo, hi, overlap)
  {
  }

  lemma CompletionKeepsLate(s: Scan)
    requires Inv(s) && OverlapInv(s) && Enabled(s, Closed) && s.p.windows == [] && s.p.overlap >= 0
    ensures LateRange(s.log, s.log.resetBase, s.log.low, s.p.end - s.p.overlap, s.p.overlap)
  {
    ClosedKeepsInv(s, Closed);
    SweepIsLate(s, s.p.end - s.p.overlap);
    if s.p.start > s.log.low {
      LateJoins(s.log, s.log.resetBase, s.log.low, s.p.lastCompleted - s.p.overlap, s.p.start,
                s.p.end - s.p.overlap, s.p.overlap);
    }
  }

  lemma PlanKeepsOverlapInv(s: Scan, now: int, cfg: Config)
    requires Inv(s) && OverlapInv(s) && Enabled(s, Plan(now, cfg))
    ensures OverlapInv(Step(s, Plan(now, cfg)))
  {
    var t := Step(s, Plan(now, cfg));
    var q := Reconfigured(s.p, cfg);
    assert q.overlap == cfg.overlap;
    assert t.p.lastCompleted == q.lastCompleted && t.p.overlap == q.overlap && t.log.listings == s.log.listings;
    if t.p.lastCompleted != 0 {
      assert q == s.p;
      LowMovesUp(s, now, cfg);
      LateGrows(s.log, t.log, s.log.resetBase, s.log.low, t.log.low, s.p.lastCompleted - s.p.overlap, s.p.overlap);
    }
  }

  /** A full sweep never starts below the one before. */
  lemma LowMovesUp(s: Scan, now: int, cfg: Config)
    requires Inv(s) && Enabled(s, Plan(now, cfg)) && s.p.lookback == cfg.lookback && s.p.lastCompleted != 0
    ensures s.log.low <= Step(s, Plan(now, cfg)).log.low
  {
    if StartsSweep(s.p, now) {
      PlansMoveForward(s.log.planNow, s.p.lastCompleted, now, cfg.lookback);
    }
  }

  lemma GrowthKeepsOverlapInv(s: Scan, t: Scan)
    requires OverlapInv(s) && t.p.lastCompleted == s.p.lastCompleted && t.p.overlap == s.p.overlap
    requires t.p.start == s.p.start
    requires Active(t.p) ==> Active(s.p)
    requires s.log.listings <= t.log.listings && s.log.recorded <= t.log.recorded
    requires t.log.sweepBase == s.log.sweepBase && t.log.resetBase == s.log.resetBase && t.log.low == s.log.low
    requires t.log.planNow == s.log.planNow
    requires forall k :: |s.log.listings| <= k < |t.log.listings| ==> t.log.listings[k].at >= t.log.planNow
    ensures OverlapInv(t)
  {
    if s.p.lastCompleted != 0 {
      LateGrows(s.log, t.log, s.log.resetBase, s.log.low, s.log.low, s.p.lastCompleted - s.p.overlap, s.p.overlap);
    }
  }

  lemma StepKeepsOverlapInv(s: Scan, e: Event)
    requires Inv(s) && OverlapInv(s) && OverlapIsSet(s.p)
    ensures OverlapInv(Step(s, e)) && OverlapIsSet(Step(s, e).p)
  {
    if Enabled(s, e) {
      if e.Plan? {
        PlanKeepsOverlapInv(s, e.now, e.cfg);
      } else if e.Closed? && s.p.windows == [] {
        CompletionKeepsLate(s);
      } else {
        GrowthKeepsOverlapInv(s, Step(s, e));
      }
    }
  }

  lemma {:induction false} RunKeepsOverlapInv(tr: Trace)
    ensures OverlapInv(Run(tr)) && OverlapIsSet(Run(tr).p)
  {
    if tr.Then? {
      RunKeepsOverlapInv(tr.before);
      RunKeepsInv(tr.before);
      StepKeepsOverlapInv(Run(tr.before), tr.action);
    }
  }

  /** An upstream record: its time and when it became visible to listings. */
  datatype Sighting = Sighting(time: int, visible: int)

  /** The record lies in the window of the listing and was visible when it was made. */
  predicate Shows(listing: Listing, r: Sighting) {
    listing.window.start <= r.time <= listing.window.end && r.visible <= listing.at
  }

  /** The listing holds every record of its window that was visible when it was made. */
  ghost predicate HoldsVisible(listing: Listing, world: map<string, Sighting>) {
    forall id :: id in world && Shows(listing, world[id]) ==> id in IdsOf(listing.items)
  }

  /**
    In every run, once the last-completed time has passed a record's time by the overlap, the record has been
    recorded, if it became visible within the overlap less a second and is not older than the start of the last full
    sweep.
   */
  lemma {:induction false} OverlapCatchesLateRecords(tr: Trace, world: map<string, Sighting>, id: string)
    requires
      var log := Run(tr).log;
      forall k :: log.resetBase <= k < |log.listings| ==> HoldsVisible(log.listings[k], world)
    requires
      var s := Run(tr);
      && s.p.lastCompleted != 0 && id in world && s.log.low <= world[id].time <= s.p.lastCompleted - s.p.overlap
      && world[id].visible <= world[id].time + s.p.overlap - SECOND
    ensures WasRecorded(Run(tr).log, Run(tr).log.resetBase, id)
  {
    var s, t := Run(tr), world[id].time;
    RunKeepsOverlapInv(tr);
    assert LateCovered(s.log, s.log.resetBase, t, Grace(t, s.p.overlap));
    var k: nat :| s.log.resetBase <= k && LateCoveredBy(s.log, k, t, Grace(t, s.p.overlap));
    assert id in IdsOf(s.log.listings[k].items);
    var item :| item in s.log.listings[k].items && item.id == id;
    assert (k, item) in s.log.recorded;
  }
}
