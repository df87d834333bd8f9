/**
  The durable progress record of a history scan and the store that validates every write of it
  (internal/historystate/store.go).
 */
module HistoryState {
  import opened Options

  const MAX_WINDOWS: nat := 4096
  const MAX_PENDING: nat := 100000
  const MAX_ID: nat := 1024
  const MAX_MARKER: nat := 128

  datatype Window = Window(start: int, end: int)

  datatype Item = Item(id: string, marker: string, when: int)

  datatype Block = Unblocked | Saturated | Expired

  datatype Progress = Progress(
    lookback: int, overlap: int,
    start: int, end: int, lastCompleted: int, lastSweep: int,
    windows: seq<Window>, pending: seq<Item>, page: Option<Window>, block: Block)

  /** What `read` returns for a key that was never written. */
  const FRESH: Progress := Progress(0, 0, 0, 0, 0, 0, [], [], None, Unblocked)

  datatype Verdict = Ok | Full | Corrupt

  predicate WindowOk(w: Window) {
    w.start != 0 && w.start < w.end
  }

  predicate ItemOk(i: Item) {
    0 < |i.id| <= MAX_ID && |i.marker| <= MAX_MARKER && i.when != 0
  }

  predicate UniqueIds(items: seq<Item>) {
    forall i, j :: 0 <= i < j < |items| ==> items[i].id != items[j].id
  }

  predicate WithinCaps(p: Progress, max: nat) {
    |p.windows| <= MAX_WINDOWS && |p.pending| <= max
  }

  predicate WellFormed(p: Progress) {
    && (forall i :: 0 <= i < |p.windows| ==> WindowOk(p.windows[i]))
    && (p.page.Some? ==> WindowOk(p.page.value))
    && (forall i :: 0 <= i < |p.pending| ==> ItemOk(p.pending[i]))
    && UniqueIds(p.pending)
  }

  /** `validate`: the loops with the running `seen` set decide exactly `WithinCaps` and `WellFormed`. */
  method Validate(p: Progress, max: nat) returns (r: Verdict)
    ensures r == Full <==> !WithinCaps(p, max)
    ensures r == Ok <==> WithinCaps(p, max) && WellFormed(p)
  {
    if |p.windows| > MAX_WINDOWS || |p.pending| > max {
      return Full;
    }
    for i := 0 to |p.windows|
      invariant forall k :: 0 <= k < i ==> WindowOk(p.windows[k])
    {
      if p.windows[i].start == 0 || p.windows[i].end <= p.windows[i].start {
        return Corrupt;
      }
    }
    if p.page.Some? && (p.page.value.start == 0 || p.page.value.end <= p.page.value.start) {
      return Corrupt;
    }
    var seen: set<string> := {};
    for i := 0 to |p.pending|
      invariant forall k :: 0 <= k < i ==> ItemOk(p.pending[k])
      invariant UniqueIds(p.pending[..i])
      invariant seen == set k | 0 <= k < i :: p.pending[k].id
    {
      var item := p.pending[i];
      if item.id == "" || |item.id| > MAX_ID || |item.marker| > MAX_MARKER || item.when == 0 || item.id in seen {
        if item.id in seen {
          var k :| 0 <= k < i && p.pending[k].id == item.id;
          assert !UniqueIds(p.pending);
        }
        return Corrupt;
      }
      seen := seen + {item.id};
    }
    assert p.pending[..|p.pending|] == p.pending;
    return Ok;
  }

  /**
    One key of the store. `Update` is the atomic transaction: it commits the changed progress only
    when the validator accepts it and the encoded size fits; any error leaves the old value.
   */
  class Store {
    var saved: Progress

    constructor ()
      ensures saved == FRESH
    {
      saved := FRESH;
    }

    method Update(max: nat, changed: Progress) returns (r: Verdict)
      modifies this
      ensures saved == if r == Ok then changed else old(saved)
      ensures r == Ok ==> WithinCaps(changed, max) && WellFormed(changed)
    {
      r := Validate(changed, max);
      var encodedTooLarge: bool := *;
      if r == Ok && encodedTooLarge {
        r := Full;
      }
      if r == Ok {
        saved := changed;
      }
    }
  }
}
