/**
  How the two history sources decide that a page is complete (internal/historyscan/adapters.go): a log page
  by the totals the list reports, a query page by staying under the fixed cap of the history route.
 */
module HistoryPages {
  import opened Options
  import opened Sets
  import opened HistoryState
  import opened HistoryScan
  import opened HistoryCoverage
  import Outbox

  datatype Page = Page(items: seq<Item>, complete: bool)

  ghost predicate Holds(items: seq<Item>, matching: set<string>) {
    IdsOf(items) == matching
  }

  function IdsOf(items: seq<Item>): set<string> {
    set item | item in items :: item.id
  }

  lemma {:induction false} UniqueIdsCount(items: seq<Item>)
    requires UniqueIds(items)
    ensures |IdsOf(items)| == |items|
  {
    if items != [] {
      var front, last := items[..|items| - 1], items[|items| - 1];
      UniqueIdsCount(front);
      assert items == front + [last];
      assert IdsOf(items) == IdsOf(front) + {last.id};
      assert forall x :: x in front ==> x.id != last.id;
    }
  }

  /** Distinct ids out of a set that is no larger are the whole set. */
  lemma EnoughIsAll(items: seq<Item>, matching: set<string>)
    requires UniqueIds(items) && IdsOf(items) <= matching && |items| >= |matching|
    ensures Holds(items, matching)
  {
    UniqueIdsCount(items);
    LargeSubsetIsAll(IdsOf(items), matching);
  }

  lemma NoMoreThanMatching(items: seq<Item>, matching: set<string>)
    requires UniqueIds(items) && IdsOf(items) <= matching
    ensures |items| <= |matching|
    ensures |items| < |matching| ==> !Holds(items, matching)
  {
    UniqueIdsCount(items);
    SubsetIsSmaller(IdsOf(items), matching);
  }

  // ---------------------------------------------------------------- log pages

  /** A listed update time: absent, not RFC 3339, or an instant with its canonical UTC text. */
  datatype Stamp = Missing | Unparsable | At(when: int, text: string)

  datatype LogEntry = LogEntry(id: string, updatedOn: Stamp)

  datatype LogList = LogList(malformed: bool, totalRecords: Option<int>, threshold: Option<int>, results: seq<LogEntry>)

  predicate MetadataOk(list: LogList) {
    && !list.malformed && list.totalRecords.Some? && list.threshold.Some?
    && list.totalRecords.value >= 0 && list.threshold.value > 0
    && |list.results| <= list.threshold.value && |list.results| <= list.totalRecords.value
  }

  predicate EntriesOk(entries: seq<LogEntry>) {
    && (forall i :: 0 <= i < |entries| ==> Outbox.ValidLogId(entries[i].id) && entries[i].updatedOn.At?)
    && forall i, j :: 0 <= i < j < |entries| ==> entries[i].id != entries[j].id
  }

  predicate IsItem(item: Item, e: LogEntry) {
    e.updatedOn.At? && item == Item(e.id, e.updatedOn.text, e.updatedOn.when)
  }

  /**
    One item per entry, in order; complete when nothing is missing from the total and the threshold was not reached.
   */
  predicate IsLogPage(list: LogList, page: Page)
    requires MetadataOk(list)
  {
    && |page.items| == |list.results|
    && (forall i :: 0 <= i < |list.results| ==> IsItem(page.items[i], list.results[i]))
    && (page.complete <==> |list.results| == list.totalRecords.value && |list.results| < list.threshold.value)
  }

  /** `logPage`: refuses bad metadata, bad or repeated ids and bad times, and nothing else. */
  method LogPage(list: LogList) returns (r: Option<Page>)
    ensures r.Some? <==> MetadataOk(list) && EntriesOk(list.results)
    ensures r.Some? ==> IsLogPage(list, r.value) && UniqueIds(r.value.items)
  {
    if list.malformed || list.totalRecords.None? || list.totalRecords.value < 0 || list.threshold.None?
       || list.threshold.value <= 0 || |list.results| > list.threshold.value
           || |list.results| > list.totalRecords.value {
      return None;
    }
    var items, seen: set<string> := [], {};
    for n := 0 to |list.results|
      invariant |items| == n && EntriesOk(list.results[..n])
      invariant seen == set k | 0 <= k < n :: list.results[k].id
      invariant forall k :: 0 <= k < n ==> IsItem(items[k], list.results[k])
    {
      var e := list.results[n];
      if !Outbox.ValidLogId(e.id) || e.id in seen || !e.updatedOn.At? {
        if e.id in seen {
          var k :| 0 <= k < n && list.results[k].id == e.id;
          assert !EntriesOk(list.results);
        }
        return None;
      }
      seen := seen + {e.id};
      items := items + [Item(e.id, e.updatedOn.text, e.updatedOn.when)];
    }
    assert list.results[..|list.results|] == list.results;
    return Some(Page(items, |items| == list.totalRecords.value && |items| < list.threshold.value));
  }

  /**
    Against an upstream that lists only matching logs and says how many there are, a page is called complete
    exactly when it holds every matching log and there are fewer of them than the threshold.
   */
  lemma CompleteLogPageHoldsAll(list: LogList, page: Page, matching: set<string>)
    requires MetadataOk(list) && IsLogPage(list, page) && UniqueIds(page.items)
    requires IdsOf(page.items) <= matching && list.totalRecords.value == |matching|
    ensures page.complete <==> Holds(page.items, matching) && |matching| < list.threshold.value
  {
    NoMoreThanMatching(page.items, matching);
    if |page.items| >= |matching| {
      EnoughIsAll(page.items, matching);
    }
  }

  // ---------------------------------------------------------------- query pages

  /** The number of queries the history route returns at most. */
  const HISTORY_CAP: nat := 1000

  datatype HistoryItem = HistoryItem(id: string, idOk: bool, state: string, created: int)

  predicate HistoryOk(items: seq<HistoryItem>, max: int) {
    && |items| <= max
    && (forall i :: 0 <= i < |items| ==> items[i].idOk && items[i].state != "" && items[i].created != 0)
    && forall i, j :: 0 <= i < j < |items| ==> items[i].id != items[j].id
  }

  /** `queryPage` over decoded items (none if they do not decode). */
  method QueryPage(history: Option<seq<HistoryItem>>, max: int) returns (r: Option<Page>)
    ensures r.Some? <==> history.Some? && HistoryOk(history.value, max)
    ensures r.Some? ==>
              && |r.value.items| == |history.value| && UniqueIds(r.value.items)
              && (forall i :: 0 <= i < |history.value| ==>
                    r.value.items[i] == Item(history.value[i].id, "", history.value[i].created))
              && (r.value.complete <==> |history.value| < HISTORY_CAP)
  {
    if history.None? || |history.value| > max {
      return None;
    }
    var found := history.value;
    var items, seen: set<string> := [], {};
    for n := 0 to |found|
      invariant |items| == n && HistoryOk(found[..n], max)
      invariant seen == set k | 0 <= k < n :: found[k].id
      invariant forall k :: 0 <= k < n ==> items[k] == Item(found[k].id, "", found[k].created)
    {
      var item := found[n];
      if !item.idOk || item.id in seen || item.state == "" || item.created == 0 {
        if item.id in seen {
          var k :| 0 <= k < n && found[k].id == item.id;
          assert !HistoryOk(found, max);
        }
        return None;
      }
      seen := seen + {item.id};
      items := items + [Item(item.id, "", item.created)];
    }
    assert found[..|found|] == found;
    return Some(Page(items, |items| < HISTORY_CAP));
  }

  /** If the route returns all matching queries up to its cap, a page under the cap holds every one of them. */
  lemma PageUnderCapHoldsAll(items: seq<Item>, matching: set<string>)
    requires UniqueIds(items) && IdsOf(items) <= matching
    requires |items| == if |matching| < HISTORY_CAP then |matching| else HISTORY_CAP
    ensures |items| < HISTORY_CAP <==> |matching| < HISTORY_CAP
    ensures |items| < HISTORY_CAP ==> Holds(items, matching)
  {
    if |items| < HISTORY_CAP {
      EnoughIsAll(items, matching);
    }
  }

  // ---------------------------------------------------------------- what coverage is worth

  /** The listing holds every one of these records whose time lies in its window. */
  ghost predicate HoldsItsWindow(listing: Listing, times: map<string, int>) {
    forall id :: id in times && listing.window.start <= times[id] <= listing.window.end ==> id in IdsOf(listing.items)
  }

  lemma CoverageRecordsAll(log: Audit, k: nat, times: map<string, int>, id: string) returns (item: Item)
    requires id in times && CoveredBy(log, k, times[id]) && HoldsItsWindow(log.listings[k], times)
    ensures item.id == id && (k, item) in log.recorded
  {
    item :| item in log.listings[k].items && item.id == id;
  }

  /** The record was recorded for a page listed at or after position `base`. */
  ghost predicate WasRecorded(log: Audit, base: nat, id: string) {
    exists k: nat, item: Item :: base <= k && item.id == id && (k, item) in log.recorded
  }

  /**
    End to end. If every page listed complete in this sweep held every upstream record whose time lies in its window,
    then whenever the last-completed time moves, every upstream record with a time in `[start, end]` has been
    recorded in this sweep.
   */
  lemma CompletedSweepRecordsEverything(tr: Trace, e: HistoryScan.Event, times: map<string, int>)
    requires Step(Run(tr), e).p.lastCompleted != Run(tr).p.lastCompleted
    requires !(e.Plan? && e.cfg.lookback != Run(tr).p.lookback)
    requires
      var log := Step(Run(tr), e).log;
      forall k :: Run(tr).log.sweepBase <= k < |log.listings| ==> HoldsItsWindow(log.listings[k], times)
    ensures
      var s, t := Run(tr), Step(Run(tr), e);
      && t.p.lastCompleted == s.p.end
      && forall id :: id in times && s.p.start <= times[id] <= s.p.end ==> WasRecorded(t.log, s.log.sweepBase, id)
  {
    var s, log := Run(tr), Step(Run(tr), e).log;
    CompletionMeansCoverage(tr, e);
    forall id | id in times && s.p.start <= times[id] <= s.p.end
      ensures WasRecorded(log, s.log.sweepBase, id)
    {
      assert Covered(log, s.log.sweepBase, times[id]);
      var k: nat :| s.log.sweepBase <= k && CoveredBy(log, k, times[id]);
      var item := CoverageRecordsAll(log, k, times, id);
    }
  }
}
