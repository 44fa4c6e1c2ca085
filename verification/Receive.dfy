/**
 Receiving a request of unknown size from HTTP.sys: retry the same request in a larger buffer,
 a bounded number of times, and discard it when the bound is reached.

 The queue can be closed by another thread at any moment.  Every look at it is numbered, and
 `closing` says before which look the close took place.
 */
module Receive {
  import opened Wrappers

  const GROWTH_FACTOR: nat := 16
  const MAX_CAPACITY: nat := 64 * 1024 * 1024
  const USIZE_MAX: nat := 0xFFFF_FFFF_FFFF_FFFF

  const INVALID_HANDLE: nat := 6

  type Id = nat

  /** The platform's answer to one receive; `MoreData` names the request that did not fit. */
  datatype Answer = Delivered | MoreData(id: Id) | Refused(code: nat)

  datatype Rejection = Accepted | Declined | Closed

  datatype Event = Attempt(target: Id, capacity: nat) | Reject(id: Id, outcome: Rejection)

  datatype Outcome =
    | Received(retries: nat)
    | TooLarge(id: Id, attempted: nat, retries: nat, discarded: bool)
    | Failed(code: nat)
    | Waiting

  function Max(a: nat, b: nat): nat {
    if a < b then b else a
  }

  /** Multiplication that stops at the largest machine word. */
  function Grow(capacity: nat): nat {
    Min(Min(capacity * GROWTH_FACTOR, USIZE_MAX), MAX_CAPACITY)
  }

  predicate IsOpen(look: nat, closing: Option<nat>) {
    closing.None? || look < closing.value
  }

  // ---------------------------------------------------------------- the schedule of capacities

  function Power(k: nat): nat {
    if k == 0 then 1 else 16 * Power(k - 1)
  }

  /** The capacity of the k-th attempt. */
  function Capacity(first: nat, k: nat): nat {
    if k == 0 then first else Min(Power(k) * first, 67_108_864)
  }

  lemma Scale(p: nat, first: nat)
    ensures GROWTH_FACTOR * p * first == (p * first) * GROWTH_FACTOR
  {
  }

  /** Growing step by step, saturating and capped, is the closed form. */
  lemma GrowthFollowsTheSchedule(first: nat, k: nat)
    ensures Grow(Capacity(first, k)) == Capacity(first, k + 1)
  {
    Scale(Power(k), first);
    assert Power(k + 1) == GROWTH_FACTOR * Power(k);
    if k == 0 {
      assert Power(1) * first == first * GROWTH_FACTOR;
    }
  }

  /** A retry is larger than the attempt before it if and only if that attempt was below the ceiling: a
      caller who starts above the ceiling is retried in a smaller buffer. */
  lemma RetryIsLargerIffBelowTheCeiling(first: nat, k: nat)
    requires first > 0
    ensures Capacity(first, k + 1) > Capacity(first, k) <==> Capacity(first, k) < MAX_CAPACITY
  {
    GrowthFollowsTheSchedule(first, k);
    PositiveCapacity(first, k);
  }

  lemma {:induction false} PositivePower(k: nat)
    ensures Power(k) > 0
  {
    if k > 0 {
      PositivePower(k - 1);
    }
  }

  lemma PositiveCapacity(first: nat, k: nat)
    requires first > 0
    ensures Capacity(first, k) > 0
  {
    PositivePower(k);
    assert Power(k) * first > 0;
  }

  lemma RetryCanShrink()
    ensures Capacity(MAX_CAPACITY + 1, 1) < Capacity(MAX_CAPACITY + 1, 0)
  {
  }

  // ---------------------------------------------------------------- receiving

  /** The attempts of a log follow the schedule, and each retry asks for the request just recovered. */
  ghost predicate Scheduled(log: seq<Event>, n: nat, id: Id, first: nat, answers: seq<Answer>) {
    && n <= |log| && n <= |answers| + 1
    && forall k :: 0 <= k < n ==>
         && log[k].Attempt? && log[k].capacity == Capacity(first, k)
         && (k == 0 ==> log[k].target == id)
         && (k > 0 ==> answers[k - 1].MoreData? && log[k].target == answers[k - 1].id)
  }

  lemma OneMoreAttempt(log: seq<Event>, id: Id, first: nat, answers: seq<Answer>, target: Id)
    requires Scheduled(log, |log|, id, first, answers) && |log| <= |answers|
    requires target == if log == [] then id else if answers[|log| - 1].MoreData? then answers[|log| - 1].id else 0
    requires log != [] ==> answers[|log| - 1].MoreData?
    ensures var more := log + [Attempt(target, Capacity(first, |log|))]; Scheduled(more, |more|, id, first, answers)
  {
  }

  lemma RejectAfterAttempts(log: seq<Event>, id: Id, first: nat, answers: seq<Answer>, reject: Event)
    requires Scheduled(log, |log|, id, first, answers)
    ensures Scheduled(log + [reject], |log|, id, first, answers) && (log + [reject])[|log|] == reject
  {
  }

  method Discard(id: Id, look: nat, closing: Option<nat>, accepts: bool) returns (r: Rejection)
    ensures r.Closed? <==> !IsOpen(look + 1, closing)
    ensures !r.Closed? ==> (r.Accepted? <==> accepts)
  {
    if !IsOpen(look, closing) || !IsOpen(look + 1, closing) {
      return Closed;
    }
    r := if accepts then Accepted else Declined;
  }

  /** Receive one request. */
  method ReceiveId(id: Id, initial: nat, minimum: nat, maxRetries: nat, answers: seq<Answer>, accepts: bool,
                   closing: Option<nat>)
    returns (r: Outcome, log: seq<Event>, n: nat)
    // The attempts, `n` of them, and nothing else but one reject when the request is given up.
    ensures n <= maxRetries + 1 && Scheduled(log, n, id, Max(initial, minimum), answers)
    // None of them after the queue was closed.
    ensures forall k :: 0 <= k < n ==> closing.None? || 2 * k + 1 < closing.value
    ensures !r.TooLarge? ==> |log| == n
    ensures r.TooLarge? ==> && n == maxRetries + 1 && |log| == n + 1 && n <= |answers|
                            && answers[n - 1] == MoreData(r.id)
                            && log[n].Reject? && log[n].id == r.id
                            && (r.discarded <==> log[n].outcome.Accepted?)
                            && (log[n].outcome.Closed? <==> !IsOpen(2 * n + 1, closing))
                            && r.attempted == Capacity(Max(initial, minimum), n - 1) && r.retries == n - 1
    ensures r.Received? ==> 0 < n <= |answers| && answers[n - 1].Delivered? && r.retries == n - 1
    ensures r.Failed? ==> || (0 < n <= |answers| && answers[n - 1] == Refused(r.code))
                          || (r.code == 6 && !IsOpen(2 * n + 1, closing))
    ensures r.Waiting? ==> n == |answers| + 1
    // A queue that stays open lets every request through to an attempt or to its verdict.
    ensures closing.None? && r.Failed? ==> 0 < n <= |answers| && answers[n - 1] == Refused(r.code)
  {
    hide Capacity, Scheduled;
    ghost var first := Max(initial, minimum);
    var capacity := Max(initial, minimum);
    var target, retries := id, 0;
    log, n := [], 0;
    FirstCapacity(first, id, answers);
    while true
      invariant n == retries == |log| <= |answers| && retries <= maxRetries
      invariant Scheduled(log, n, id, first, answers)
      invariant capacity == Capacity(first, retries)
      invariant retries == 0 ==> target == id
      invariant forall k :: 0 <= k < n ==> closing.None? || 2 * k + 1 < closing.value
      invariant retries > 0 ==> answers[retries - 1] == MoreData(target)
      decreases maxRetries - retries
    {
      if !IsOpen(2 * n, closing) || !IsOpen(2 * n + 1, closing) {
        return Failed(INVALID_HANDLE), log, n;
      }
      OneMoreAttempt(log, id, first, answers, target);
      log, n := log + [Attempt(target, capacity)], n + 1;
      if n > |answers| {
        return Waiting, log, n;
      }
      match answers[n - 1]
      case Delivered =>
        return Received(retries), log, n;
      case Refused(code) =>
        return Failed(code), log, n;
      case MoreData(recovered) =>
        if retries >= maxRetries {
          var rejected := Discard(recovered, 2 * n, closing, accepts);
          RejectAfterAttempts(log, id, first, answers, Reject(recovered, rejected));
          log := log + [Reject(recovered, rejected)];
          return TooLarge(recovered, capacity, retries, rejected.Accepted?), log, n;
        }
        GrowthFollowsTheSchedule(first, retries);
        retries, target, capacity := retries + 1, recovered, Grow(capacity);
    }
  }

  lemma FirstCapacity(first: nat, id: Id, answers: seq<Answer>)
    ensures Capacity(first, 0) == first && Scheduled([], 0, id, first, answers)
  {
  }
}
