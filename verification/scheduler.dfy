/** `paralleTask`: runs a list of asynchronous tasks with at most `limit` of them in flight.
    JavaScript runs it on one thread, so it is a state machine over the counters
    `nextIndex` and `finishCount`, driven by "task i settled" events whose order the
    environment chooses. */
module Scheduler {

  function Min(a: int, b: int): int
  {
    if a <= b then a else b
  }

  function Max(a: nat, b: nat): nat
  {
    if a >= b then a else b
  }

  /** The indices 0, 1, ..., n - 1 in increasing order. */
  function Range(n: nat): (r: seq<nat>)
    ensures |r| == n && forall k :: 0 <= k < n ==> r[k] == k
  {
    seq(n, k => k)
  }

  /** The set of indices below n. */
  function Below(n: nat): (r: set<nat>)
    ensures forall k: nat :: k in r <==> k < n
  {
    if n == 0 then {} else Below(n - 1) + {n - 1}
  }

  /** No index occurs twice. */
  predicate Distinct(s: seq<nat>)
  {
    forall j, k :: 0 <= j < k < |s| ==> s[j] != s[k]
  }

  /** The state of one `paralleTask` call. `tasks` is never changed, only read by index.
      Beside the source's two counters the class records what the promises and the
      `resolve` callback do: the tasks in flight, the tasks settled, every claim and every
      settlement in order, and how often `resolve()` was called. */
  class Scheduler<T> {
    const tasks: seq<T>
    const limit: nat
    var nextIndex: nat
    var finishCount: nat
    var inFlight: set<nat>
    var settled: set<nat>
    var claims: seq<nat>
    var settleLog: seq<nat>
    var resolveCount: nat

    /** The bookkeeping every step keeps, also halfway through the launch loop and through
        a settlement: the claims are exactly 0 .. nextIndex - 1 in order, and each claimed
        task is either in flight or settled, never both. */
    ghost predicate Consistent()
      reads this
    {
      && finishCount <= nextIndex <= |tasks|
      && |claims| == nextIndex
      && (forall k :: 0 <= k < |claims| ==> claims[k] == k)
      && inFlight !! settled
      && (forall k: nat :: k in inFlight || k in settled <==> k < nextIndex)
      && |inFlight| == nextIndex - finishCount
      && |settled| == finishCount
      && |settleLog| == finishCount
      && Distinct(settleLog)
      && (forall k :: 0 <= k < |settleLog| ==> settleLog[k] in settled)
      && (forall j :: j in settled ==> j in settleLog)
    }

    /** The invariant between events: the pool is as full as the remaining work allows,
        and `resolve()` has been called once exactly when every task has settled. */
    ghost predicate Valid()
      reads this
    {
      && Consistent()
      && nextIndex - finishCount == Min(limit, |tasks| - finishCount)
      && resolveCount == (if finishCount == |tasks| then 1 else 0)
    }

    /** The promise `paralleTask` returned has been resolved. */
    predicate Resolved()
      reads this
    {
      resolveCount > 0
    }

    /** `paralleTask(tasks, limit)`: resolves at once on an empty list; otherwise the launch
        loop calls `_run` `limit` times, or once per task when there are fewer tasks. */
    constructor (tasks: seq<T>, limit: nat)
      ensures Valid()
      ensures this.tasks == tasks && this.limit == limit
      ensures finishCount == 0 && nextIndex == Min(limit, |tasks|)
      ensures claims == Range(Min(limit, |tasks|)) && inFlight == Below(Min(limit, |tasks|))
      ensures settled == {} && settleLog == []
      ensures Resolved() <==> |tasks| == 0
    {
      this.tasks := tasks;
      this.limit := limit;
      nextIndex, finishCount := 0, 0;
      inFlight, settled := {}, {};
      claims, settleLog := [], [];
      resolveCount := 0;
      new;
      if |tasks| == 0 {
        resolveCount := 1;
        return;
      }
      var count := if limit <= |tasks| then limit else |tasks|;
      for i := 0 to count
        invariant Consistent()
        invariant nextIndex == i && finishCount == 0 && resolveCount == 0
        invariant inFlight == Below(i) && settled == {} && settleLog == []
      {
        var task := Run();
      }
    }

    /** `_run`: claims `tasks[nextIndex]`, moves the cursor on and starts the task. */
    method Run() returns (task: T)
      requires Consistent() && nextIndex < |tasks|
      modifies this
      ensures Consistent()
      ensures task == tasks[old(nextIndex)]
      ensures nextIndex == old(nextIndex) + 1
      ensures claims == old(claims) + [old(nextIndex)]
      ensures inFlight == old(inFlight) + {old(nextIndex)}
      ensures finishCount == old(finishCount) && settled == old(settled)
      ensures settleLog == old(settleLog) && resolveCount == old(resolveCount)
    {
      task := tasks[nextIndex];
      assert nextIndex !in inFlight + settled;
      claims := claims + [nextIndex];
      inFlight := inFlight + {nextIndex};
      nextIndex := nextIndex + 1;
    }

    /** The `.then` callback of task `i`: count it as finished, claim the next task if any
        is left, and resolve when the last one has finished. It stands for fulfilment only:
        `.then` is given no rejection handler, so a task that rejected would never settle
        here and the promise would never resolve. */
    method Settle(i: nat)
      requires Valid() && i in inFlight
      modifies this
      ensures Valid()
      ensures finishCount == old(finishCount) + 1
      ensures settled == old(settled) + {i} && settleLog == old(settleLog) + [i]
      ensures old(nextIndex) < |tasks| ==>
                nextIndex == old(nextIndex) + 1 && claims == old(claims) + [old(nextIndex)]
                && inFlight == old(inFlight) - {i} + {old(nextIndex)}
      ensures old(nextIndex) == |tasks| ==>
                nextIndex == old(nextIndex) && claims == old(claims) && inFlight == old(inFlight) - {i}
      ensures resolveCount == old(resolveCount) + (if finishCount == |tasks| then 1 else 0)
    {
      ghost var f0, n0 := finishCount, nextIndex;
      assert i !in settled && i !in settleLog;
      inFlight := inFlight - {i};
      settled := settled + {i};
      settleLog := settleLog + [i];
      finishCount := finishCount + 1;
      assert Distinct(settleLog) by {
        assert forall k :: 0 <= k < |settleLog| - 1 ==> settleLog[k] == old(settleLog)[k];
      }
      assert Consistent();
      if nextIndex < |tasks| {
        var task := Run();
      }
      RefillKeepsPoolFull(limit, |tasks|, f0, n0);
      if finishCount == |tasks| {
        resolveCount := resolveCount + 1;
      }
    }
  }

  /** The arithmetic of one settlement: a replacement is claimed exactly when the list is
      not exhausted, and either way the pool stays as full as the remaining work allows. */
  lemma RefillKeepsPoolFull(limit: nat, n: nat, finished: nat, next: nat)
    requires finished < next <= n
    requires next - finished == Min(limit, n - finished)
    ensures next < n ==> next + 1 - (finished + 1) == Min(limit, n - (finished + 1))
    ensures next == n ==> next - (finished + 1) == Min(limit, n - (finished + 1))
  {
  }

  /** Claim uniqueness and order: claims are strictly increasing indices of `tasks`, so no
      task is started twice, and the cursor never passes the end of the list. */
  lemma ClaimsAreOrdered<T>(s: Scheduler<T>)
    requires s.Valid()
    ensures s.nextIndex <= |s.tasks| && |s.claims| == s.nextIndex
    ensures forall j, k :: 0 <= j < k < |s.claims| ==> s.claims[j] < s.claims[k] < |s.tasks|
  {
  }

  /** The concurrency bound: never more than `min(limit, N)` tasks in flight. */
  lemma InFlightBounded<T>(s: Scheduler<T>)
    requires s.Valid()
    ensures 0 <= s.finishCount <= s.nextIndex <= |s.tasks|
    ensures |s.inFlight| <= Min(s.limit, |s.tasks|)
  {
  }

  /** Completion is exact: the promise is resolved exactly when every task has settled,
      and then every index below N was claimed once, has settled once, and none is left
      in flight. */
  lemma CompletionIsExact<T>(s: Scheduler<T>)
    requires s.Valid()
    ensures s.Resolved() <==> s.finishCount == |s.tasks|
    ensures s.Resolved() ==>
              s.inFlight == {} && s.settled == Below(|s.tasks|) && s.claims == Range(|s.tasks|)
              && |s.settleLog| == |s.tasks| && Distinct(s.settleLog)
  {
    if s.Resolved() {
      assert |s.inFlight| == 0;
    }
  }

  /** With a positive limit the scheduler never stalls: until it resolves, some task is in
      flight, so another settlement event can always come. */
  lemma NoStallWithPositiveLimit<T>(s: Scheduler<T>)
    requires s.Valid() && s.limit >= 1 && !s.Resolved()
    ensures s.inFlight != {}
  {
    assert |s.inFlight| >= 1;
  }

  /** Runs `paralleTask` to the end. Which in-flight task settles next is the environment's
      choice, made arbitrarily at each step, so the contract holds for every completion
      order. `run` gives what each task produces when it settles (its status line, for the
      plugin). `settleOrder` lists the tasks in the order they settled, `results` what they
      produced in that order, and `peak` is the most tasks that were in flight at once. */
  method RunToCompletion<T, R>(tasks: seq<T>, limit: nat, run: T -> R)
    returns (settleOrder: seq<nat>, results: seq<R>, peak: nat)
    requires limit >= 1
    ensures |settleOrder| == |tasks| == |results| && Distinct(settleOrder)
    ensures forall k :: 0 <= k < |tasks| ==> k in settleOrder
    ensures forall j :: 0 <= j < |settleOrder| ==>
              settleOrder[j] < |tasks| && results[j] == run(tasks[settleOrder[j]])
    ensures peak == Min(limit, |tasks|)
  {
    var s := new Scheduler(tasks, limit);
    peak := |s.inFlight|;
    results := [];
    while !s.Resolved()
      invariant s.Valid() && s.tasks == tasks && s.limit == limit
      invariant peak == Min(limit, |tasks|)
      invariant |results| == |s.settleLog|
      invariant forall j :: 0 <= j < |s.settleLog| ==>
                  s.settleLog[j] < |tasks| && results[j] == run(tasks[s.settleLog[j]])
      decreases |tasks| - s.finishCount
    {
      NoStallWithPositiveLimit(s);
      var i :| i in s.inFlight;
      s.Settle(i);
      results := results + [run(tasks[i])];
      InFlightBounded(s);
      peak := Max(peak, |s.inFlight|);
    }
    CompletionIsExact(s);
    settleOrder := s.settleLog;
    forall k | 0 <= k < |tasks| ensures k in settleOrder {
      assert k in s.settled;
    }
  }
}
