/**
  The single-flight token refresh of `tokenManager.get` (internal/ddae/auth.go) as a state machine over the
  steps of any number of concurrent callers. A step is one critical section of the mutex, or one wake-up.
 */
module TokenProtocol {
  import opened Options
  import opened Runs

  datatype Lease = Lease(token: string, generation: nat)

  datatype Result = Granted(lease: Lease) | Refused

  /** Where a call stands: waiting for a refresh somebody else runs, running one itself, or back at its caller. */
  datatype Call = Waiting(refresh: nat) | Refreshing(refresh: nat, next: nat) | Returned(result: Result)

  /** One call of `get`; `entered` notes the generation the manager had when the call came in. */
  datatype Entry = Entry(rejected: nat, entered: nat, call: Call)

  /**
    The manager's fields, the refreshes ever begun (none in a finished one's place means it is still running),
    the calls ever made, and, for the record, the token issued for each generation from 1 on.
   */
  datatype State = State(
    token: string, refreshAt: Option<int>, generation: nat, inflight: Option<nat>,
    refreshes: seq<Option<Result>>, calls: seq<Entry>, issued: seq<string>)

  datatype Action =
    | Enter(rejected: nat, now: int)
    | Succeed(k: nat, token: string, refreshAt: Option<int>)
    | Fail(k: nat)
    | Wake(k: nat)
    | Cancel(k: nat)

  function Initial(): State {
    State("", None, 0, None, [], [], [])
  }

  predicate Usable(s: State, now: int) {
    s.token != "" && (s.refreshAt.None? || now < s.refreshAt.value)
  }

  predicate IsRefreshing(s: State, k: nat) {
    k < |s.calls| && s.calls[k].call.Refreshing? && s.calls[k].call.refresh < |s.refreshes|
  }

  predicate IsWaiting(s: State, k: nat) {
    k < |s.calls| && s.calls[k].call.Waiting? && s.calls[k].call.refresh < |s.refreshes|
  }

  /** Call `k` goes back to its caller. */
  function Returning(s: State, k: nat, result: Result): seq<Entry>
    requires k < |s.calls|
  {
    s.calls[k := s.calls[k].(call := Returned(result))]
  }

  function Entered(s: State, rejected: nat, now: int): State {
    if Usable(s, now) && (rejected == 0 || s.generation > rejected) then
      var lease := Lease(s.token, s.generation);
      s.(calls := s.calls + [Entry(rejected, s.generation, Returned(Granted(lease)))])
    else if s.inflight.Some? then
      s.(calls := s.calls + [Entry(rejected, s.generation, Waiting(s.inflight.value))])
    else
      s.(calls := s.calls + [Entry(rejected, s.generation, Refreshing(|s.refreshes|, s.generation + 1))],
         refreshes := s.refreshes + [None], inflight := Some(|s.refreshes|))
  }

  /** The end of a refresh: its result is published to everyone waiting for it. */
  function Closed(s: State, k: nat, result: Result): State
    requires IsRefreshing(s, k)
  {
    var r := s.calls[k].call.refresh;
    s.(refreshes := s.refreshes[r := Some(result)], inflight := if s.inflight == Some(r) then None else s.inflight,
       calls := Returning(s, k, result))
  }

  function Succeeded(s: State, k: nat, token: string, refreshAt: Option<int>): State
    requires IsRefreshing(s, k)
  {
    var next := s.calls[k].call.next;
    Closed(s, k, Granted(Lease(token, next))).(
      token := token, refreshAt := refreshAt, generation := next, issued := s.issued + [token])
  }

  /** A token answer is never empty: `request` refuses such a reply. */
  predicate Enabled(s: State, a: Action) {
    match a
    case Enter(_, _) => true
    case Succeed(k, token, _) => IsRefreshing(s, k) && token != ""
    case Fail(k) => IsRefreshing(s, k)
    case Wake(k) => IsWaiting(s, k) && s.refreshes[s.calls[k].call.refresh].Some?
    case Cancel(k) => IsWaiting(s, k)
  }

  function Step(s: State, a: Action): State {
    if !Enabled(s, a) then s
    else
      match a
      case Enter(rejected, now) => Entered(s, rejected, now)
      case Succeed(k, token, refreshAt) => Succeeded(s, k, token, refreshAt)
      case Fail(k) => Closed(s, k, Refused)
      case Wake(k) => s.(calls := Returning(s, k, s.refreshes[s.calls[k].call.refresh].value))
      case Cancel(k) => s.(calls := Returning(s, k, Refused))
  }

  type Trace = Past<Action>

  function Run(tr: Trace): State {
    if tr.Start? then Initial() else Step(Run(tr.before), tr.action)
  }

  // ---------------------------------------------------------------- the invariant

  /** The lease pairs a generation with the token issued for it. */
  predicate Genuine(s: State, lease: Lease) {
    1 <= lease.generation <= |s.issued| && s.issued[lease.generation - 1] == lease.token
  }

  ghost predicate TokenOk(s: State) {
    && s.generation == |s.issued| && (forall i :: 0 <= i < |s.issued| ==> s.issued[i] != "")
    && (if s.generation == 0 then s.token == "" else s.token == s.issued[s.generation - 1])
  }

  /** A running refresh is the one in flight, and somebody is running it. */
  ghost predicate FlightOk(s: State) {
    && (s.inflight.Some? ==> s.inflight.value < |s.refreshes| && exists k: nat :: IsRefreshing(s, k))
    && (forall r :: 0 <= r < |s.refreshes| ==> (s.refreshes[r].None? <==> s.inflight == Some(r)))
    && (forall j: nat, k: nat :: IsRefreshing(s, j) && IsRefreshing(s, k) ==> j == k)
  }

  ghost predicate ResultOk(s: State, e: Entry, result: Result) {
    result.Granted? ==>
      && Genuine(s, result.lease) && result.lease.generation >= e.entered
      && (result.lease.generation > e.rejected <==> e.rejected <= e.entered)
  }

  ghost predicate EntryOk(s: State, e: Entry) {
    && e.entered <= s.generation
    && match e.call
       case Waiting(r) =>
         && r < |s.refreshes| && (s.refreshes[r].None? ==> e.entered == s.generation)
         && (s.refreshes[r].Some? && s.refreshes[r].value.Granted? ==>
               Genuine(s, s.refreshes[r].value.lease) && s.refreshes[r].value.lease.generation == e.entered + 1)
       case Refreshing(r, next) => s.inflight == Some(r) && next == s.generation + 1 && e.entered == s.generation
       case Returned(result) => ResultOk(s, e, result)
  }

  ghost predicate Inv(s: State) {
    TokenOk(s) && FlightOk(s) && forall k :: 0 <= k < |s.calls| ==> EntryOk(s, s.calls[k])
  }

  lemma EnterKeepsFlight(s: State, rejected: nat, now: int)
    requires Inv(s)
    ensures FlightOk(Entered(s, rejected, now))
  {
    var s', n := Entered(s, rejected, now), |s.calls|;
    assert forall k :: 0 <= k < n ==> EntryOk(s, s.calls[k]);
    assert forall k: nat :: k < n ==> (IsRefreshing(s', k) <==> IsRefreshing(s, k));
    if s.inflight.Some? {
      var k: nat :| IsRefreshing(s, k);
      assert IsRefreshing(s', k);
    } else if s'.inflight.Some? {
      assert IsRefreshing(s', n);
    }
  }

  lemma EnterKeepsInv(s: State, rejected: nat, now: int)
    requires Inv(s)
    ensures Inv(Entered(s, rejected, now))
  {
    var s' := Entered(s, rejected, now);
    EnterKeepsFlight(s, rejected, now);
    forall k | 0 <= k < |s.calls|
      ensures EntryOk(s', s'.calls[k])
    {
      assert EntryOk(s, s.calls[k]);
    }
  }

  lemma CloseKeepsFlight(s: State, k: nat, result: Result)
    requires Inv(s) && IsRefreshing(s, k)
    ensures FlightOk(Closed(s, k, result)) && Closed(s, k, result).inflight == None
    ensures forall j :: 0 <= j < |s.calls| && j != k ==>
              Closed(s, k, result).calls[j] == s.calls[j] && !s.calls[j].call.Refreshing?
  {
    assert EntryOk(s, s.calls[k]);
    forall j | 0 <= j < |s.calls| && j != k
      ensures !s.calls[j].call.Refreshing?
    {
      assert EntryOk(s, s.calls[j]);
      assert !IsRefreshing(s, j);
    }
  }

  lemma SucceedKeepsInv(s: State, k: nat, token: string, refreshAt: Option<int>)
    requires Inv(s) && IsRefreshing(s, k) && token != ""
    ensures Inv(Succeeded(s, k, token, refreshAt))
  {
    var s' := Succeeded(s, k, token, refreshAt);
    var lease := Lease(token, s.calls[k].call.next);
    CloseKeepsFlight(s, k, Granted(lease));
    assert EntryOk(s, s.calls[k]);
    assert forall l :: Genuine(s, l) ==> Genuine(s', l);
    assert Genuine(s', lease);
    forall j | 0 <= j < |s.calls|
      ensures EntryOk(s', s'.calls[j])
    {
      assert EntryOk(s, s.calls[j]);
    }
  }

  lemma FailKeepsInv(s: State, k: nat)
    requires Inv(s) && IsRefreshing(s, k)
    ensures Inv(Closed(s, k, Refused))
  {
    var s' := Closed(s, k, Refused);
    CloseKeepsFlight(s, k, Refused);
    forall j | 0 <= j < |s.calls|
      ensures EntryOk(s', s'.calls[j])
    {
      assert EntryOk(s, s.calls[j]);
    }
  }

  /** A waiting call that goes back, with the refresh's result or with nothing. */
  lemma ReturnKeepsInv(s: State, k: nat, result: Result)
    requires Inv(s) && IsWaiting(s, k)
    requires result == Refused || s.refreshes[s.calls[k].call.refresh] == Some(result)
    ensures Inv(s.(calls := Returning(s, k, result)))
  {
    var s' := s.(calls := Returning(s, k, result));
    assert forall j: nat :: IsRefreshing(s, j) <==> IsRefreshing(s', j);
    forall j | 0 <= j < |s.calls|
      ensures EntryOk(s', s'.calls[j])
    {
      assert EntryOk(s, s.calls[j]);
    }
  }

  /** Every step of every caller keeps the invariant. */
  lemma StepKeepsInv(s: State, a: Action)
    requires Inv(s)
    ensures Inv(Step(s, a))
  {
    if Enabled(s, a) {
      match a
      case Enter(rejected, now) => EnterKeepsInv(s, rejected, now);
      case Succeed(k, token, refreshAt) => SucceedKeepsInv(s, k, token, refreshAt);
      case Fail(k) => FailKeepsInv(s, k);
      case Wake(k) => ReturnKeepsInv(s, k, s.refreshes[s.calls[k].call.refresh].value);
      case Cancel(k) => ReturnKeepsInv(s, k, Refused);
    }
  }

  lemma {:induction false} RunKeepsInv(tr: Trace)
    ensures Inv(Run(tr))
  {
    if tr.Then? {
      RunKeepsInv(tr.before);
      StepKeepsInv(Run(tr.before), tr.action);
    }
  }

  // ---------------------------------------------------------------- what the protocol promises

  /** In no run are two refreshes ever under way at once, and nobody waits for a refresh that nobody runs. */
  lemma SingleFlight(tr: Trace)
    ensures forall j: nat, k: nat :: IsRefreshing(Run(tr), j) && IsRefreshing(Run(tr), k) ==> j == k
    ensures forall k: nat :: IsWaiting(Run(tr), k) && Run(tr).refreshes[Run(tr).calls[k].call.refresh].None? ==>
                          exists j: nat :: IsRefreshing(Run(tr), j)
                              && Run(tr).calls[j].call.refresh == Run(tr).calls[k].call.refresh
  {
    var s := Run(tr);
    RunKeepsInv(tr);
    forall k: nat | IsWaiting(s, k) && s.refreshes[s.calls[k].call.refresh].None?
      ensures exists j: nat :: IsRefreshing(s, j) && s.calls[j].call.refresh == s.calls[k].call.refresh
    {
      var j: nat :| IsRefreshing(s, j);
      assert EntryOk(s, s.calls[j]);
    }
  }

  predicate IsGrant(s: State, a: Action) {
    a.Succeed? && Enabled(s, a)
  }

  /** Each successful refresh raises the generation by one, and nothing else touches generation or token. */
  lemma OnlySuccessChangesToken(tr: Trace, a: Action)
    ensures
      var s, s' := Run(tr), Run(Then(tr, a));
      if IsGrant(s, a) then s'.generation == s.generation + 1 && s'.token == a.token
      else s'.generation == s.generation && s'.token == s.token && s'.refreshAt == s.refreshAt
  {
    var s := Run(tr);
    RunKeepsInv(tr);
    if IsGrant(s, a) {
      assert EntryOk(s, s.calls[a.k]);
    }
  }

  function Grants(tr: Trace): nat {
    if tr.Start? then 0 else Grants(tr.before) + if IsGrant(Run(tr.before), tr.action) then 1 else 0
  }

  /** The generation counts the successful refreshes of the run. */
  lemma {:induction false} GenerationCountsGrants(tr: Trace)
    ensures Run(tr).generation == Grants(tr)
  {
    if tr.Then? {
      GenerationCountsGrants(tr.before);
      OnlySuccessChangesToken(tr.before, tr.action);
    }
  }

  /** What the last successful refresh of the run brought: the token and its refresh time, if it has one. */
  function LastGrant(tr: Trace): Option<(string, Option<int>)> {
    if tr.Start? then None
    else if IsGrant(Run(tr.before), tr.action) then Some((tr.action.token, tr.action.refreshAt))
    else LastGrant(tr.before)
  }

  /** A token was granted, and its refresh time is absent or still to come. */
  predicate GrantStands(tr: Trace, now: int) {
    && LastGrant(tr).Some?
    && var refreshAt := LastGrant(tr).value.1;
       refreshAt.None? || now < refreshAt.value
  }

  /** Token and refresh time are those of the last grant. */
  lemma {:induction false} TokenIsLastGrant(tr: Trace)
    ensures
      var s := Run(tr);
      if LastGrant(tr).Some? then s.token == LastGrant(tr).value.0 != "" && s.refreshAt == LastGrant(tr).value.1
      else s.token == ""
  {
    if tr.Then? {
      TokenIsLastGrant(tr.before);
      OnlySuccessChangesToken(tr.before, tr.action);
    }
  }

  /** The refresh that some call is running. */
  ghost predicate IsUnderWay(s: State, refresh: nat) {
    exists j: nat :: IsRefreshing(s, j) && s.calls[j].call.refresh == refresh
  }

  /**
    In every run a call that comes in at `now` is answered at once, with the token last granted, if and only if that
    grant stands and the rejected generation is 0 or older. Otherwise it waits for the refresh under way, or begins
    one when there is none.
   */
  lemma {:induction false} EntryIsAnsweredExactlyWhenGrantStands(tr: Trace, rejected: nat, now: int)
    ensures
      var s, s' := Run(tr), Run(Then(tr, Enter(rejected, now)));
      var answered := GrantStands(tr, now) && (rejected == 0 || rejected < Grants(tr));
      && |s'.calls| == |s.calls| + 1 && s'.calls[..|s.calls|] == s.calls
      && var call := s'.calls[|s.calls|].call;
         && (call.Returned? <==> answered)
         && (answered ==> call.result == Granted(Lease(LastGrant(tr).value.0, Grants(tr))))
         && (call.Waiting? ==> IsUnderWay(s, call.refresh))
         && (call.Refreshing? ==> call.next == Grants(tr) + 1 && forall j: nat :: !IsRefreshing(s, j))
  {
    var s := Run(tr);
    RunKeepsInv(tr);
    TokenIsLastGrant(tr);
    GenerationCountsGrants(tr);
    if s.inflight.Some? {
      var j: nat :| IsRefreshing(s, j);
      assert EntryOk(s, s.calls[j]);
    }
    forall j: nat | IsRefreshing(s, j)
      ensures s.inflight.Some?
    {
      assert EntryOk(s, s.calls[j]);
    }
  }

  /** The usability test of `get` is that the last grant stands. */
  lemma UsableMeansGrantStands(tr: Trace, now: int)
    ensures Usable(Run(tr), now) <==> GrantStands(tr, now)
  {
    TokenIsLastGrant(tr);
  }

  /** The call that waits for a refresh goes back with what that refresh brought. */
  lemma {:induction false} WaiterSharesTheGrant(tr: Trace, j: nat, k: nat, token: string, refreshAt: Option<int>)
    requires
      var s := Run(tr);
      IsRefreshing(s, j) && IsWaiting(s, k) && s.calls[k].call.refresh == s.calls[j].call.refresh && token != ""
    ensures
      var s' := Run(Then(Then(tr, Succeed(j, token, refreshAt)), Wake(k)));
      && j < |s'.calls| && k < |s'.calls| && s'.calls[j].call == Returned(Granted(Lease(token, Grants(tr) + 1)))
      && s'.calls[k].call == s'.calls[j].call
  {
    var s := Run(tr);
    RunKeepsInv(tr);
    GenerationCountsGrants(tr);
    assert EntryOk(s, s.calls[j]);
    assert j != k;
    var s1 := Step(s, Succeed(j, token, refreshAt));
    assert s1.calls[k] == s.calls[k] && s1.refreshes[s.calls[j].call.refresh].Some?;
    assert Run(Then(tr, Succeed(j, token, refreshAt))) == s1;
  }

  predicate IsGranted(s: State, k: nat) {
    k < |s.calls| && s.calls[k].call.Returned? && s.calls[k].call.result.Granted?
  }

  /**
    A successful call never gets back the lease it rejected, nor an older one, exactly when the generation it
    rejected was at most the manager's at the time; and every lease carries the token issued for its generation.
   */
  lemma FreshLeaseExactlyWhenKnown(tr: Trace, k: nat)
    requires IsGranted(Run(tr), k)
    ensures
      var s := Run(tr);
      var e, lease := s.calls[k], s.calls[k].call.result.lease;
      && (lease.generation > e.rejected <==> e.rejected <= e.entered)
      && lease.generation >= e.entered && Genuine(s, lease)
  {
    RunKeepsInv(tr);
    assert EntryOk(Run(tr), Run(tr).calls[k]);
  }

  /** The generation was handed out to some caller. */
  ghost predicate HandedOut(s: State, g: nat) {
    exists k: nat :: IsGranted(s, k) && s.calls[k].call.result.lease.generation == g
  }

  /** Callers reject only what they were handed: the client calls `get` with 0 or with its own lease's generation. */
  ghost predicate Honest(tr: Trace) {
    tr.Then? ==>
      && Honest(tr.before)
      && (tr.action.Enter? && tr.action.rejected != 0 ==> HandedOut(Run(tr.before), tr.action.rejected))
  }

  lemma HandedOutIsKnown(tr: Trace, g: nat)
    requires HandedOut(Run(tr), g)
    ensures 1 <= g <= Run(tr).generation
  {
    RunKeepsInv(tr);
    var k: nat :| IsGranted(Run(tr), k) && Run(tr).calls[k].call.result.lease.generation == g;
    assert EntryOk(Run(tr), Run(tr).calls[k]);
  }

  lemma {:induction false} HonestCallsAreKnown(tr: Trace)
    requires Honest(tr)
    ensures forall k :: 0 <= k < |Run(tr).calls| ==> Run(tr).calls[k].rejected <= Run(tr).calls[k].entered
  {
    if tr.Then? {
      HonestCallsAreKnown(tr.before);
      if tr.action.Enter? && tr.action.rejected != 0 {
        HandedOutIsKnown(tr.before, tr.action.rejected);
      }
    }
  }

  /** With such callers, in every run, a successful call returns a generation newer than the one it rejected. */
  lemma RejectedLeaseNeverReturns(tr: Trace, k: nat)
    requires Honest(tr) && IsGranted(Run(tr), k)
    ensures Run(tr).calls[k].call.result.lease.generation > Run(tr).calls[k].rejected
  {
    HonestCallsAreKnown(tr);
    FreshLeaseExactlyWhenKnown(tr, k);
  }

  /** A caller that rejects a generation the manager never had can be handed one that is no newer. */
  lemma UnknownRejectionIsNotHonoured()
    ensures
      var tr := Then(Then(Start, Enter(5, 0)), Succeed(0, "t", None));
      IsGranted(Run(tr), 0) && Run(tr).calls[0].call.result.lease.generation == 1
  {
    var s := Step(Initial(), Enter(5, 0));
    assert s.calls[0] == Entry(5, 0, Refreshing(0, 1)) && s.refreshes == [None];
    assert Run(Then(Start, Enter(5, 0))) == s;
  }

  // ---------------------------------------------------------------- coalescing

  /**
    From here on callers reject generation `g` at most, and come before the next grant's refresh time if it has one.
   */
  ghost predicate Burst(from: Trace, tr: Trace, g: nat) {
    tr != from ==>
      && tr.Then? && Burst(from, tr.before, g)
      && (tr.action.Enter? ==>
            && tr.action.rejected <= g
            && (Run(tr.before).generation == g + 1 ==> GrantStands(tr.before, tr.action.now)))
  }

  /**
    However many callers find generation `g` rejected at the same time, between them they refresh the token
    successfully at most once, as long as nobody comes in after the new token's refresh time.
   */
  lemma {:induction false} BurstRefreshesOnce(from: Trace, tr: Trace, g: nat)
    requires Burst(from, tr, g) && Run(from).generation <= g
    ensures Run(tr).generation <= g + 1 && (Run(tr).generation == g + 1 ==> Run(tr).inflight == None)
  {
    RunKeepsInv(tr);
    if tr != from {
      BurstRefreshesOnce(from, tr.before, g);
      RunKeepsInv(tr.before);
      var s, a := Run(tr.before), tr.action;
      OnlySuccessChangesToken(tr.before, a);
      if a.Enter? {
        UsableMeansGrantStands(tr.before, a.now);
      }
      if a.Succeed? && Enabled(s, a) {
        assert EntryOk(s, s.calls[a.k]);
      }
    }
  }

  /**
    The condition is needed: with no refresh in flight, any caller that comes in after the refresh time begins
    another one, whatever it rejects, and that one raises the generation again.
   */
  lemma {:induction false} ExpiryEndsTheBurst(tr: Trace, rejected: nat, now: int, token: string) returns (later: Trace)
    requires Run(tr).inflight == None && !GrantStands(tr, now) && token != ""
    ensures later == Then(Then(tr, Enter(rejected, now)), Succeed(|Run(tr).calls|, token, None))
    ensures Run(later).generation == Run(tr).generation + 1
  {
    var s, k := Run(tr), |Run(tr).calls|;
    UsableMeansGrantStands(tr, now);
    var entered := Then(tr, Enter(rejected, now));
    later := Then(entered, Succeed(k, token, None));
    assert Run(entered) == Entered(s, rejected, now);
    assert Run(entered).calls[k].call == Refreshing(|s.refreshes|, s.generation + 1);
    OnlySuccessChangesToken(entered, Succeed(k, token, None));
  }
}
