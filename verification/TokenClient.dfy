/**
  The token manager as an object shared by concurrent callers (internal/ddae/auth.go) and the request loop
  that uses it (internal/ddae/client.go). `calls` and `refreshes` hold where every other caller stands, so that
  any step of any of them may run between two steps of the call at hand; the ghost `trace` is the run so far.
 */
module TokenClient {
  import opened Options
  import opened Runs
  import opened TokenProtocol

  datatype FailureClass =
    NoFailure | AuthFailure | HttpFailure | DecodeFailure | TimeoutFailure | TransportFailure | OtherFailure

  /** What one HTTP exchange yields; status 0 means no response. */
  datatype Reply = Reply(status: nat, failure: FailureClass)

  const UNAUTHORIZED := 401

  predicate Unreached(reply: Reply) {
    reply.status == 0 && reply.failure in {TimeoutFailure, TransportFailure}
  }

  /** No answer for want of time or transport, or one that asks to come back: 429, or a status in the given range. */
  predicate IsTransient(reply: Reply, low: nat, high: nat) {
    || reply.status == 429 || low <= reply.status <= high
    || (reply.status == 0 && (reply.failure == TimeoutFailure || reply.failure == TransportFailure))
  }

  predicate TokenRetryable(reply: Reply) {
    reply.status == 429 || 500 <= reply.status <= 599 || Unreached(reply)
  }

  predicate Retryable(reply: Reply) {
    reply.failure != NoFailure && (reply.status in {429, 502, 503, 504} || Unreached(reply))
  }

  /** Time passes: calls are kept, generations only grow, and a lease stays genuine. */
  ghost predicate Later(s: State, s': State) {
    s.generation <= s'.generation && |s.calls| <= |s'.calls| && s.issued <= s'.issued
  }

  /** The call a step belongs to, if it is one under way. */
  predicate Touches(a: Action, k: nat) {
    !a.Enter? && a.k == k
  }

  lemma StepIsLater(s: State, a: Action)
    requires Inv(s)
    ensures Later(s, Step(s, a))
    ensures forall k: nat :: k < |s.calls| && !Touches(a, k) ==> Step(s, a).calls[k] == s.calls[k]
  {
    if a.Succeed? && Enabled(s, a) {
      assert EntryOk(s, s.calls[a.k]);
    }
  }

  class TokenManager {
    var token: string
    var refreshAt: Option<int>
    var generation: nat
    var inflight: Option<nat>
    var refreshes: seq<Option<Result>>
    var calls: seq<Entry>
    ghost var issued: seq<string>
    ghost var trace: Trace
    const retryMax: nat

    ghost function View(): State
      reads this
    {
      State(token, refreshAt, generation, inflight, refreshes, calls, issued)
    }

    ghost predicate Valid()
      reads this
    {
      View() == Run(trace) && Inv(View())
    }

    constructor (retryMax: nat)
      ensures Valid() && View() == Initial() && this.retryMax == retryMax
    {
      this.retryMax := retryMax;
      token, refreshAt, generation, inflight, refreshes, calls := "", None, 0, None, [], [];
      issued, trace := [], Start;
    }

    ghost method Happen(a: Action)
      requires View() == Step(Run(trace), a)
      modifies this`trace
      ensures Valid() && trace == Then(old(trace), a)
    {
      RunKeepsInv(trace);
      StepKeepsInv(Run(trace), a);
      trace := Then(trace, a);
    }

    /** The first critical section: use the token, join the refresh in flight, or begin one. */
    method Begin(rejected: nat, now: int) returns (k: nat)
      requires Valid()
      modifies this
      ensures Valid() && trace == Then(old(trace), Enter(rejected, now))
      ensures View() == Entered(old(View()), rejected, now)
      ensures k == |old(calls)| && calls[..k] == old(calls) && Later(old(View()), View())
      ensures |calls| == k + 1 && calls[k] == Entry(rejected, old(generation), calls[k].call)
      ensures calls[k].call.Returned? <==>
                && old(token) != "" && (old(refreshAt).None? || now < old(refreshAt).value)
                && (rejected == 0 || rejected < old(generation))
      ensures calls[k].call.Returned? ==> calls[k].call.result == Granted(Lease(old(token), old(generation)))
    {
      k := |calls|;
      var usable := token != "" && (refreshAt.None? || now < refreshAt.value);
      if usable && (rejected == 0 || generation > rejected) {
        calls := calls + [Entry(rejected, generation, Returned(Granted(Lease(token, generation))))];
      } else if inflight.Some? {
        calls := calls + [Entry(rejected, generation, Waiting(inflight.value))];
      } else {
        var refresh := |refreshes|;
        refreshes := refreshes + [None];
        inflight := Some(refresh);
        calls := calls + [Entry(rejected, generation, Refreshing(refresh, generation + 1))];
      }
      Happen(Enter(rejected, now));
      StepIsLater(old(View()), Enter(rejected, now));
    }

    /** The second critical section: publish the refresh's result and let the waiting calls go. */
    method Finish(k: nat, answer: Option<(string, Option<int>)>)
      requires Valid() && k < |calls| && calls[k].call.Refreshing? && calls[k].call.refresh < |refreshes|
      requires answer.Some? ==> answer.value.0 != ""
      modifies this
      ensures Valid() && |calls| == |old(calls)| && calls[k] == old(calls[k]).(call := calls[k].call)
      ensures calls[k].call ==
              Returned(if answer.Some? then Granted(Lease(answer.value.0, old(calls)[k].call.next)) else Refused)
      ensures Later(old(View()), View()) && forall j: nat :: j < |calls| && j != k ==> calls[j] == old(calls[j])
      ensures trace == Then(old(trace), if answer.Some? then Succeed(k, answer.value.0, answer.value.1) else Fail(k))
    {
      var refresh, next := calls[k].call.refresh, calls[k].call.next;
      var result := Refused;
      if answer.Some? {
        result := Granted(Lease(answer.value.0, next));
        token, refreshAt, generation := answer.value.0, answer.value.1, next;
        issued := issued + [token];
      }
      refreshes := refreshes[refresh := Some(result)];
      if inflight == Some(refresh) {
        inflight := None;
      }
      calls := calls[k := calls[k].(call := Returned(result))];
      Happen(if answer.Some? then Succeed(k, answer.value.0, answer.value.1) else Fail(k));
      StepIsLater(old(View()), trace.action);
    }

    /** A waiting call goes back: with the refresh's result, or because its own context ended. */
    method Leave(k: nat, cancelled: bool)
      requires Valid() && k < |calls| && calls[k].call.Waiting? && calls[k].call.refresh < |refreshes|
      requires !cancelled ==> refreshes[calls[k].call.refresh].Some?
      modifies this
      ensures Valid() && |calls| == |old(calls)| && calls[k] == old(calls[k]).(call := calls[k].call)
      ensures calls[k].call ==
              Returned(if cancelled then Refused else old(refreshes)[old(calls)[k].call.refresh].value)
      ensures Later(old(View()), View()) && forall j: nat :: j < |calls| && j != k ==> calls[j] == old(calls[j])
      ensures trace == Then(old(trace), if cancelled then Cancel(k) else Wake(k))
    {
      var result := if cancelled then Refused else refreshes[calls[k].call.refresh].value;
      calls := calls[k := calls[k].(call := Returned(result))];
      Happen(if cancelled then Cancel(k) else Wake(k));
      StepIsLater(old(View()), trace.action);
    }

    /** One step of some call other than `me`. */
    method OtherStep(me: nat)
      requires Valid()
      modifies this
      ensures Valid() && Continues(old(trace), trace) && Later(old(View()), View())
      ensures me < |old(calls)| ==> calls[me] == old(calls[me])
    {
      var k: nat, rejected: nat, now: int, cancelled: bool := *, *, *, *;
      if k >= |calls| {
        var _ := Begin(rejected, now);
      } else if k != me && calls[k].call.Refreshing? && calls[k].call.refresh < |refreshes| {
        var answer: Option<(string, Option<int>)> := *;
        if answer.Some? && answer.value.0 == "" {
          answer := None;
        }
        Finish(k, answer);
      } else if k != me && calls[k].call.Waiting? && calls[k].call.refresh < |refreshes|
                && (cancelled || refreshes[calls[k].call.refresh].Some?) {
        Leave(k, cancelled);
      }
    }

    /** Any number of steps of other calls. */
    method Others(me: nat)
      requires Valid()
      modifies this
      ensures Valid() && Continues(old(trace), trace) && Later(old(View()), View())
      ensures me < |old(calls)| ==> calls[me] == old(calls[me])
    {
      var n: nat := *;
      while n > 0
        invariant Valid() && Continues(old(trace), trace) && Later(old(View()), View())
        invariant me < |old(calls)| ==> calls[me] == old(calls[me])
      {
        ghost var before := trace;
        OtherStep(me);
        ContinuesTransitive(old(trace), before, trace);
        n := n - 1;
      }
    }

    /**
      The token request with its retries: at most `retryMax` + 1 posts. Only a post without an answer for want of
      time or transport, or one answered 429 or 5xx, is followed by another, and such a one always is while posts are
      left and the wait is not cancelled.
     */
    method RequestWithRetry(me: nat)
      returns (answer: Option<(string, Option<int>)>, replies: seq<Reply>, cancelled: bool)
      requires Valid()
      modifies this
      ensures Valid() && Continues(old(trace), trace) && Later(old(View()), View())
      ensures me < |old(calls)| ==> calls[me] == old(calls[me])
      ensures answer.Some? ==> answer.value.0 != ""
      ensures 1 <= |replies| <= retryMax + 1
      ensures forall i :: 0 <= i < |replies| - 1 ==> IsTransient(replies[i], 500, 599)
      ensures answer.Some? <==> replies[|replies| - 1].failure == NoFailure
      ensures answer.None? && !cancelled && |replies| < retryMax + 1 ==> !IsTransient(replies[|replies| - 1], 500, 599)
    {
      replies, cancelled := [], false;
      for attempt := 0 to retryMax + 1
        invariant Valid() && Continues(old(trace), trace) && Later(old(View()), View())
        invariant me < |old(calls)| ==> calls[me] == old(calls[me])
        invariant |replies| == attempt <= retryMax && !cancelled
        invariant forall i :: 0 <= i < |replies| ==> IsTransient(replies[i], 500, 599)
      {
        ghost var before := trace;
        Others(me);
        ContinuesTransitive(old(trace), before, trace);
        var reply, token, refreshAt := Post();
        replies := replies + [reply];
        if reply.failure == NoFailure {
          return Some((token, refreshAt)), replies, cancelled;
        }
        if !TokenRetryable(reply) || attempt == retryMax {
          return None, replies, cancelled;
        }
        cancelled := *;
        if cancelled {
          return None, replies, cancelled;
        }
      }
      return None, replies, cancelled;
    }

    /** One token request: an answer without a usable token counts as one that does not decode. */
    method Post() returns (reply: Reply, token: string, refreshAt: Option<int>)
      ensures reply.failure == NoFailure ==> token != ""
    {
      reply, token, refreshAt := *, *, *;
      if reply.failure == NoFailure && token == "" {
        reply := reply.(failure := DecodeFailure);
      }
    }

    /** The call that began a refresh runs it to its end. */
    method Refresh(k: nat)
      requires Valid() && k < |calls| && calls[k].call.Refreshing?
      modifies this
      ensures Valid() && Continues(old(trace), trace) && Later(old(View()), View())
      ensures calls[k] == old(calls[k]).(call := calls[k].call) && calls[k].call.Returned?
      ensures IsNextLease(calls[k])
    {
      var answer, _, _ := RequestWithRetry(k);
      assert EntryOk(View(), calls[k]);
      ghost var before := trace;
      Finish(k, answer);
      ContinuesTransitive(old(trace), before, trace);
    }

    /** A call that joined a refresh waits until that has ended or its own context is done. */
    method Wait(k: nat)
      requires Valid() && k < |calls| && calls[k].call.Waiting?
      modifies this
      ensures Valid() && Continues(old(trace), trace) && Later(old(View()), View())
      ensures calls[k] == old(calls[k]).(call := calls[k].call) && calls[k].call.Returned?
      ensures IsNextLease(calls[k])
    {
      Others(k);
      assert EntryOk(View(), calls[k]);
      var cancelled: bool := *;
      ghost var before := trace;
      Leave(k, cancelled || refreshes[calls[k].call.refresh].None?);
      ContinuesTransitive(old(trace), before, trace);
    }

    /**
      `get`: a lease whose generation is newer than any rejected one that the manager knew of. The current lease comes
      back only before its refresh time, and then it does whenever the caller did not reject it.
     */
    method Get(rejected: nat) returns (r: Result, now: int)
      requires Valid()
      modifies this
      ensures Valid() && Continues(old(trace), trace) && Later(old(View()), View())
      ensures r.Granted? ==> Genuine(View(), r.lease) && r.lease.generation >= old(generation)
      ensures r.Granted? ==> (r.lease.generation > rejected <==> rejected <= old(generation))
      ensures r == Granted(Lease(old(token), old(generation))) <==>
                && old(token) != "" && (old(refreshAt).None? || now < old(refreshAt).value)
                && (rejected == 0 || rejected < old(generation))
      ensures r.Granted? && r.lease.generation == old(generation) ==> r.lease.token == old(token)
    {
      now := *;
      var k := Begin(rejected, now);
      ghost var t1 := trace;
      if calls[k].call.Refreshing? {
        Refresh(k);
      } else if calls[k].call.Waiting? {
        Wait(k);
      }
      ContinuesTransitive(old(trace), t1, trace);
      assert EntryOk(View(), calls[k]);
      r := calls[k].call.result;
    }
  }

  /** A call that went through a refresh comes back with the generation after the one it found, or with nothing. */
  predicate IsNextLease(e: Entry) {
    e.call.Returned? && (e.call.result.Granted? ==> e.call.result.lease.generation == e.entered + 1)
  }

  // ---------------------------------------------------------------- the request loop

  datatype CallResult = Success | NoToken | Unauthorized | Failed | TimedOut | Internal

  function CountUnauthorized(replies: seq<Reply>): nat {
    if replies == [] then 0
    else CountUnauthorized(replies[..|replies| - 1]) + if replies[|replies| - 1].status == UNAUTHORIZED then 1 else 0
  }

  /** The lease of the next request: a rejected lease is replaced by a newer one, any other failure keeps it. */
  predicate Follows(reply: Reply, before: Lease, after: Lease) {
    if reply.status == UNAUTHORIZED then after.generation > before.generation
    else after == before && Retryable(reply)
  }

  predicate LeasesFollow(replies: seq<Reply>, used: seq<Lease>) {
    |used| == |replies| && forall i :: 0 < i < |used| ==> Follows(replies[i - 1], used[i - 1], used[i])
  }

  ghost predicate AllGenuine(s: State, used: seq<Lease>) {
    forall i :: 0 <= i < |used| ==> Genuine(s, used[i])
  }

  lemma GenuineStays(s: State, s': State, used: seq<Lease>)
    requires AllGenuine(s, used) && Later(s, s')
    ensures AllGenuine(s', used)
  {
    forall i | 0 <= i < |used|
      ensures Genuine(s', used[i])
    {
      assert s'.issued[used[i].generation - 1] == s.issued[used[i].generation - 1];
    }
  }

  lemma CountAppend(replies: seq<Reply>, reply: Reply)
    ensures CountUnauthorized(replies + [reply]) ==
            CountUnauthorized(replies) + if reply.status == UNAUTHORIZED then 1 else 0
  {
    assert (replies + [reply])[..|replies|] == replies;
  }

  /** How a finished call ended, told from the exchanges it made. */
  ghost predicate EndsAs(r: CallResult, replies: seq<Reply>, retryMax: int) {
    if replies == [] then r == NoToken || (r == Internal && retryMax < 0)
    else
      var last := replies[|replies| - 1];
      match r
      case Success => last.failure == NoFailure && last.status != UNAUTHORIZED
      case NoToken => last.status == UNAUTHORIZED && CountUnauthorized(replies) == 1
      case Unauthorized => last.status == UNAUTHORIZED && CountUnauthorized(replies) == 2
      case Failed =>
        && last.failure != NoFailure && last.status != UNAUTHORIZED
        && (Retryable(last) ==> |replies| == retryMax + 1 + CountUnauthorized(replies))
      case TimedOut => Retryable(last) && last.status != UNAUTHORIZED
      case Internal => false
  }

  /** The loop between two requests, about to use `lease`. */
  ghost predicate Trying(replies: seq<Reply>, used: seq<Lease>, lease: Lease, authRetried: bool, attempt: int,
                         retryMax: int) {
    && LeasesFollow(replies, used)
    && CountUnauthorized(replies) == (if authRetried then 1 else 0)
    && |replies| == attempt + CountUnauthorized(replies) && (attempt <= retryMax || replies == [])
    && (replies != [] ==> Follows(replies[|replies| - 1], used[|used| - 1], lease))
  }

  /** What one more request adds to the record. */
  lemma OneMoreReply(replies: seq<Reply>, used: seq<Lease>, lease: Lease, authRetried: bool, attempt: int,
                     retryMax: int, reply: Reply)
    requires Trying(replies, used, lease, authRetried, attempt, retryMax)
    ensures
      var rs := replies + [reply];
      && LeasesFollow(rs, used + [lease])
      && CountUnauthorized(rs) == (if authRetried then 1 else 0) + (if reply.status == UNAUTHORIZED then 1 else 0)
      && |rs| == attempt + 1 + if authRetried then 1 else 0
  {
    CountAppend(replies, reply);
  }

  /** What a call comes to: its leases follow each other, it is bounded, and its outcome is told by its exchanges. */
  ghost predicate IsCall(r: CallResult, replies: seq<Reply>, used: seq<Lease>, retryMax: int) {
    && LeasesFollow(replies, used) && CountUnauthorized(replies) <= 2 && EndsAs(r, replies, retryMax)
    && |replies| <= (if retryMax < 0 then 0 else retryMax + 1 + if CountUnauthorized(replies) > 0 then 1 else 0)
  }

  /** The outcome of a call if it ends with this reply. */
  function Ending(authRetried: bool, attempt: int, retryMax: int, reply: Reply): CallResult {
    if reply.status == UNAUTHORIZED then (if authRetried then Unauthorized else NoToken)
    else if reply.failure == NoFailure then Success
    else if !Retryable(reply) || attempt == retryMax then Failed
    else TimedOut
  }

  lemma LastReplyEnds(replies: seq<Reply>, used: seq<Lease>, lease: Lease, authRetried: bool, attempt: int,
                      retryMax: int, reply: Reply)
    requires Trying(replies, used, lease, authRetried, attempt, retryMax) && attempt <= retryMax
    ensures IsCall(Ending(authRetried, attempt, retryMax, reply), replies + [reply], used + [lease], retryMax)
  {
    OneMoreReply(replies, used, lease, authRetried, attempt, retryMax, reply);
  }

  /** A call that goes on, after a first 401 with a newer lease or after a transient failure with the same one. */
  lemma AttemptContinues(replies: seq<Reply>, used: seq<Lease>, lease: Lease, authRetried: bool, attempt: int,
                         retryMax: int, reply: Reply, next: Lease)
    requires Trying(replies, used, lease, authRetried, attempt, retryMax) && attempt <= retryMax
    requires Follows(reply, lease, next)
    requires if reply.status == UNAUTHORIZED then !authRetried else attempt < retryMax
    ensures
      var first401 := reply.status == UNAUTHORIZED;
      Trying(replies + [reply], used + [lease], next, authRetried || first401,
             if first401 then attempt else attempt + 1, retryMax)
  {
    OneMoreReply(replies, used, lease, authRetried, attempt, retryMax, reply);
  }

  lemma OneMoreGenuine(s: State, used: seq<Lease>, lease: Lease)
    requires AllGenuine(s, used) && Genuine(s, lease)
    ensures AllGenuine(s, used + [lease])
  {
  }

  /**
    A 401 followed by a newer lease, or a transient failure (429, 502 to 504, no answer in time) followed by the
    same.
   */
  predicate IsRetried(reply: Reply, before: Lease, after: Lease) {
    || (reply.status == 401 && after.generation > before.generation)
    || (IsTransient(reply, 502, 504) && reply.failure != NoFailure && after == before)
  }

  /** Only such requests are followed by another. */
  lemma OnlyTransientRepliesAreRetried(replies: seq<Reply>, used: seq<Lease>)
    requires LeasesFollow(replies, used)
    ensures forall i :: 0 < i < |used| ==> IsRetried(replies[i - 1], used[i - 1], used[i])
  {
  }

  /** A call gives up on such a failure only when all its attempts are used. */
  lemma TransientFailureUsesAllAttempts(replies: seq<Reply>, retryMax: int)
    requires EndsAs(Failed, replies, retryMax) && replies != []
    ensures
      var last := replies[|replies| - 1];
      && last.failure != NoFailure && last.status != 401
      && (IsTransient(last, 502, 504) ==> |replies| == retryMax + 1 + CountUnauthorized(replies))
  {
  }

  class Client {
    const tokens: TokenManager
    const retryMax: int

    constructor (tokens: TokenManager, retryMax: int)
      ensures this.tokens == tokens && this.retryMax == retryMax
    {
      this.tokens, this.retryMax := tokens, retryMax;
    }

    /** A lease from the manager, newer than the one that was rejected. */
    method Authenticate(rejected: nat) returns (r: Result)
      requires tokens.Valid() && rejected <= tokens.generation
      modifies tokens
      ensures tokens.Valid() && Continues(old(tokens.trace), tokens.trace) && Later(old(tokens.View()), tokens.View())
      ensures r.Granted? ==> Genuine(tokens.View(), r.lease) && r.lease.generation > rejected
    {
      var result, _ := tokens.Get(rejected);
      r := result;
    }

    /** One GET, while other calls go on. */
    method Exchange() returns (reply: Reply)
      requires tokens.Valid()
      modifies tokens
      ensures tokens.Valid() && Continues(old(tokens.trace), tokens.trace) && Later(old(tokens.View()), tokens.View())
    {
      tokens.Others(|tokens.calls|);
      reply := *;
    }

    /**
      `getJSONRawPath`: at most `retryMax` + 2 requests, at most one re-authentication, and after a 401 a newer
      lease. The exchanges and the leases they used are returned for the record.
     */
    method GetJSON() returns (r: CallResult, replies: seq<Reply>, used: seq<Lease>)
      requires tokens.Valid()
      modifies tokens
      ensures tokens.Valid() && Continues(old(tokens.trace), tokens.trace)
      ensures AllGenuine(tokens.View(), used)
      ensures IsCall(r, replies, used, retryMax)
    {
      replies, used := [], [];
      var first := Authenticate(0);
      if first.Refused? {
        return NoToken, replies, used;
      }
      var lease := first.lease;
      var authRetried, attempt := false, 0;
      while attempt <= retryMax
        invariant tokens.Valid() && Continues(old(tokens.trace), tokens.trace)
        invariant AllGenuine(tokens.View(), used) && Genuine(tokens.View(), lease)
        invariant Trying(replies, used, lease, authRetried, attempt, retryMax)
        decreases retryMax - attempt, !authRetried
      {
        ghost var t1 := tokens.trace;
        var us := used + [lease];
        OneMoreGenuine(tokens.View(), used, lease);
        var reply, next := Attempt(us, lease, authRetried);
        var rs := replies + [reply];
        ContinuesTransitive(old(tokens.trace), t1, tokens.trace);
        LastReplyEnds(replies, used, lease, authRetried, attempt, retryMax, reply);
        var ending := Ending(authRetried, attempt, retryMax, reply);
        var backoffCancelled: bool := *;
        if next.None? || (reply.status != UNAUTHORIZED && (ending != TimedOut || backoffCancelled)) {
          return ending, rs, us;
        }
        AttemptContinues(replies, used, lease, authRetried, attempt, retryMax, reply, next.value);
        if reply.status == UNAUTHORIZED {
          authRetried := true;
          attempt := attempt - 1;
        }
        replies, used, lease := rs, us, next.value;
        attempt := attempt + 1;
      }
      return Internal, replies, used;
    }

    /**
      One request, and the lease for another one: after a first 401 a newer one, after a transient failure the same.
     */
    method Attempt(ghost us: seq<Lease>, lease: Lease, authRetried: bool) returns (reply: Reply, next: Option<Lease>)
      requires tokens.Valid() && AllGenuine(tokens.View(), us) && Genuine(tokens.View(), lease)
      modifies tokens
      ensures tokens.Valid() && Continues(old(tokens.trace), tokens.trace) && AllGenuine(tokens.View(), us)
      ensures next.Some? ==> Genuine(tokens.View(), next.value) && Follows(reply, lease, next.value)
      ensures next.None? ==> reply.status == UNAUTHORIZED || !Retryable(reply)
      ensures reply.status == UNAUTHORIZED && authRetried ==> next == None
    {
      ghost var s0 := tokens.View();
      reply := Exchange();
      GenuineStays(s0, tokens.View(), us);
      GenuineStays(s0, tokens.View(), [lease]);
      if reply.status != UNAUTHORIZED {
        assert Genuine(tokens.View(), [lease][0]);
        return reply, if Retryable(reply) then Some(lease) else None;
      }
      if authRetried {
        return reply, None;
      }
      assert Genuine(tokens.View(), [lease][0]);
      ghost var t1, s1 := tokens.trace, tokens.View();
      var again := Authenticate(lease.generation);
      ContinuesTransitive(old(tokens.trace), t1, tokens.trace);
      GenuineStays(s1, tokens.View(), us);
      next := if again.Refused? then None else Some(again.lease);
    }
  }
}
