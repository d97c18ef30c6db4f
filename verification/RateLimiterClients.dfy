/** Interleaved runs of many clients, seen client by client. */
module RateLimiterClients {
  import opened RateLimiter
  import opened RateLimiterRuns

  predicate IsOf(s: Settings, r: Request, client: string) {
    r.path !in s.excludePaths && ClientKey(r) == client
  }

  /** Arrival times of the client's own non-excluded requests among the first `n` of the run. */
  function Mine(s: Settings, run: seq<Request>, n: nat, client: string): seq<real>
    requires n <= |run|
  {
    if n == 0 then []
    else if IsOf(s, run[n - 1], client) then Mine(s, run, n - 1, client) + [run[n - 1].now]
    else Mine(s, run, n - 1, client)
  }

  /** Times at which the interleaved run admitted the client. */
  function AdmittedTimes(s: Settings, run: seq<Request>, n: nat, client: string): seq<real>
    requires n <= |run|
  {
    if n == 0 then []
    else if ClientKey(run[n - 1]) == client && OutcomeAt(s, run, n - 1).Admitted?
      then AdmittedTimes(s, run, n - 1, client) + [run[n - 1].now]
    else AdmittedTimes(s, run, n - 1, client)
  }

  lemma {:induction false} StoredOfPrefix(s: Settings, a: seq<real>, more: seq<real>, n: nat)
    requires n <= |a|
    ensures Stored(s, a + more, n) == Stored(s, a, n)
    ensures Log(s, a + more, n) == Log(s, a, n)
  {
    if n > 0 {
      StoredOfPrefix(s, a, more, n - 1);
    }
  }

  lemma StoredSnoc(s: Settings, a: seq<real>, t: real)
    ensures Stored(s, a + [t], |a| + 1) == NextList(s, Stored(s, a, |a|), t)
  {
    StoredOfPrefix(s, a, [t], |a|);
  }

  lemma StepIsPerClient(s: Settings, t: Table, r: Request, client: string)
    ensures Lookup(Step(s, t, r).1, client)
         == if IsOf(s, r, client) then NextList(s, Lookup(t, client), r.now) else Lookup(t, client)
  {
  }

  /** After any interleaved run a client's list is what its own requests alone would have left. */
  lemma {:induction false} TableIsPerClient(s: Settings, run: seq<Request>, n: nat, client: string)
    requires n <= |run|
    ensures var mine := Mine(s, run, n, client);
            Lookup(TableAfter(s, run, n), client) == Stored(s, mine, |mine|)
  {
    if n > 0 {
      TableIsPerClient(s, run, n - 1, client);
      StepIsPerClient(s, TableAfter(s, run, n - 1), run[n - 1], client);
      StoredSnoc(s, Mine(s, run, n - 1, client), run[n - 1].now);
    }
  }

  /** Each answer is the one the client would have got alone. */
  lemma AnswerIsPerClient(s: Settings, run: seq<Request>, i: nat)
    requires i < |run| && run[i].path !in s.excludePaths
    ensures var before, mine := Mine(s, run, i, ClientKey(run[i])), Mine(s, run, i + 1, ClientKey(run[i]));
            && mine == before + [run[i].now]
            && OutcomeAt(s, run, i) == Answer(s, mine, |before|)
  {
    var before := Mine(s, run, i, ClientKey(run[i]));
    TableIsPerClient(s, run, i, ClientKey(run[i]));
    StoredOfPrefix(s, before, [run[i].now], |before|);
  }

  /** Excluded paths are always let through and leave no trace. */
  lemma ExcludedLeavesNoTrace(s: Settings, run: seq<Request>, i: nat)
    requires i < |run|
    ensures OutcomeAt(s, run, i).Bypassed? <==> run[i].path in s.excludePaths
    ensures OutcomeAt(s, run, i).Bypassed? ==> TableAfter(s, run, i + 1) == TableAfter(s, run, i)
  {
  }

  lemma LogSnoc(s: Settings, a: seq<real>, t: real)
    ensures Log(s, a + [t], |a| + 1)
         == if Answer(s, a + [t], |a|).Admitted? then Log(s, a, |a|) + [t] else Log(s, a, |a|)
  {
    StoredOfPrefix(s, a, [t], |a|);
  }

  lemma AdmittedTimesStep(s: Settings, run: seq<Request>, n: nat, client: string)
    requires 0 < n <= |run|
    ensures AdmittedTimes(s, run, n, client)
         == if IsOf(s, run[n - 1], client) && OutcomeAt(s, run, n - 1).Admitted?
            then AdmittedTimes(s, run, n - 1, client) + [run[n - 1].now]
            else AdmittedTimes(s, run, n - 1, client)
  {
    ExcludedLeavesNoTrace(s, run, n - 1);
  }

  lemma SoloLogStep(s: Settings, run: seq<Request>, n: nat, client: string)
    requires 0 < n <= |run|
    ensures var before, mine := Mine(s, run, n - 1, client), Mine(s, run, n, client);
            Log(s, mine, |mine|) ==
              if IsOf(s, run[n - 1], client) && OutcomeAt(s, run, n - 1).Admitted?
              then Log(s, before, |before|) + [run[n - 1].now]
              else Log(s, before, |before|)
  {
    if IsOf(s, run[n - 1], client) {
      AnswerIsPerClient(s, run, n - 1);
      LogSnoc(s, Mine(s, run, n - 1, client), run[n - 1].now);
    }
  }

  /** What the run admitted of a client is the log of that client alone. */
  lemma {:induction false} AdmittedTimesArePerClient(s: Settings, run: seq<Request>, n: nat, client: string)
    requires n <= |run|
    ensures var mine := Mine(s, run, n, client);
            AdmittedTimes(s, run, n, client) == Log(s, mine, |mine|)
  {
    if n > 0 {
      AdmittedTimesArePerClient(s, run, n - 1, client);
      AdmittedTimesStep(s, run, n, client);
      SoloLogStep(s, run, n, client);
    }
  }

  ghost predicate ClockNeverStepsBack(run: seq<Request>) {
    forall i, j :: 0 <= i <= j < |run| ==> run[i].now <= run[j].now
  }

  lemma {:induction false} MineNonDecreasing(s: Settings, run: seq<Request>, n: nat, client: string, top: real)
    requires ClockNeverStepsBack(run) && n <= |run| && (n > 0 ==> run[n - 1].now <= top)
    ensures SortedUpTo(Mine(s, run, n, client), top)
  {
    if n > 0 {
      MineNonDecreasing(s, run, n - 1, client, run[n - 1].now);
      SortedSnoc(Mine(s, run, n - 1, client), run[n - 1].now, top);
    }
  }

  /** In every run of every mix of clients, no client is admitted more than the limit within any window. */
  lemma EveryClientWithinLimit(s: Settings, run: seq<Request>, client: string, from: real)
    requires ClockNeverStepsBack(run)
    ensures CountIf(AdmittedTimes(s, run, |run|, client), After(from, s.Window())) <= Bound(s)
    ensures CountIf(AdmittedTimes(s, run, |run|, client), NotBefore(from, s.Window())) <= Bound(s)
  {
    var mine := Mine(s, run, |run|, client);
    MineNonDecreasing(s, run, |run|, client, if run == [] then 0.0 else run[|run| - 1].now);
    NonDecreasingRevivesNothing(s, mine, |mine|);
    AdmittedTimesArePerClient(s, run, |run|, client);
    WindowBound(s, mine, |mine|, from);
  }

  /** A request is admitted exactly when its client had fewer than the limit admitted in the window before it. */
  lemma AdmittedIffRoom(s: Settings, run: seq<Request>, i: nat)
    requires ClockNeverStepsBack(run) && i < |run| && run[i].path !in s.excludePaths
    ensures OutcomeAt(s, run, i).Admitted?
       <==> CountIf(AdmittedTimes(s, run, i, ClientKey(run[i])), t => t > run[i].now - s.Window()) < s.maxRequests
  {
    var client, now := ClientKey(run[i]), run[i].now;
    var before, mine := Mine(s, run, i, client), Mine(s, run, i + 1, client);
    MineNonDecreasing(s, run, i + 1, client, now);
    AnswerIsPerClient(s, run, i);
    AdmittedIffRoomInFullLog(s, mine, |before|);
    var log := AdmittedTimes(s, run, i, client);
    AdmittedTimesArePerClient(s, run, i, client);
    StoredOfPrefix(s, before, [now], |before|);
    PruneLengthIsCount(log, |log|, now - s.Window());
  }

  /** No clock assumption: no list ever exceeds the limit, and only a non-positive limit makes `dispatch` fault. */
  lemma TableBounded(s: Settings, run: seq<Request>, n: nat, client: string)
    requires n <= |run|
    ensures |Lookup(TableAfter(s, run, n), client)| <= Bound(s)
    ensures n < |run| ==>
              (OutcomeAt(s, run, n).IndexFault? <==> run[n].path !in s.excludePaths && s.maxRequests <= 0)
  {
    var mine := Mine(s, run, n, client);
    TableIsPerClient(s, run, n, client);
    LengthBound(s, mine, |mine|);
    if n < |run| && run[n].path !in s.excludePaths {
      AnswerIsPerClient(s, run, n);
      var own := Mine(s, run, n + 1, ClientKey(run[n]));
      FaultIffNoBudget(s, own, |own| - 1);
    }
  }

  // ---- retry_after in interleaved runs ----

  /** Once made, an arrival keeps its place and its answer however the run goes on. */
  lemma {:induction false} AnswerKept(s: Settings, run: seq<Request>, i: nat, n: nat)
    requires i < n <= |run| && run[i].path !in s.excludePaths
    ensures var client := ClientKey(run[i]);
            var k, mine := |Mine(s, run, i, client)|, Mine(s, run, n, client);
            && k < |mine| && mine[k] == run[i].now
            && Answer(s, mine, k) == OutcomeAt(s, run, i)
  {
    var client := ClientKey(run[i]);
    if n == i + 1 {
      AnswerIsPerClient(s, run, i);
    } else {
      AnswerKept(s, run, i, n - 1);
      StoredOfPrefix(s, Mine(s, run, n - 1, client), [run[n - 1].now], |Mine(s, run, i, client)|);
    }
  }

  /** A client told to wait r seconds is rejected at every later request before they are over. */
  lemma RetryTooEarlyInRun(s: Settings, run: seq<Request>, i: nat, j: nat)
    requires ClockNeverStepsBack(run) && i < j < |run|
    requires run[i].path !in s.excludePaths && IsOf(s, run[j], ClientKey(run[i]))
    requires OutcomeAt(s, run, i).Rejected?
    requires run[j].now < run[i].now + OutcomeAt(s, run, i).retryAfter as real
    ensures OutcomeAt(s, run, j).Rejected?
  {
    var client := ClientKey(run[i]);
    var k, mine := |Mine(s, run, i, client)|, Mine(s, run, j + 1, client);
    AnswerKept(s, run, i, j + 1);
    AnswerIsPerClient(s, run, j);
    MineNonDecreasing(s, run, j + 1, client, run[j].now);
    RetryTooEarlyIsRejected(s, mine, k, |mine|);
    assert RejectedAt(s, mine, |mine| - 1);
  }

  ghost predicate NoneAdmittedBetween(s: Settings, run: seq<Request>, i: nat, j: nat, client: string)
    requires j <= |run|
  {
    forall l :: i < l < j && IsOf(s, run[l], client) ==> !OutcomeAt(s, run, l).Admitted?
  }

  lemma {:induction false} AllRejectedSince(s: Settings, run: seq<Request>, i: nat, n: nat, x: nat)
    requires i < n <= |run| && run[i].path !in s.excludePaths && OutcomeAt(s, run, i).Rejected?
    requires NoneAdmittedBetween(s, run, i, n, ClientKey(run[i]))
    requires |Mine(s, run, i, ClientKey(run[i]))| <= x < |Mine(s, run, n, ClientKey(run[i]))|
    ensures RejectedAt(s, Mine(s, run, n, ClientKey(run[i])), x)
  {
    var client := ClientKey(run[i]);
    var before, mine := Mine(s, run, n - 1, client), Mine(s, run, n, client);
    if n == i + 1 {
      AnswerIsPerClient(s, run, i);
    } else if x < |before| {
      AllRejectedSince(s, run, i, n - 1, x);
      StoredOfPrefix(s, before, [run[n - 1].now], x);
    } else {
      AnswerIsPerClient(s, run, n - 1);
      TableBounded(s, run, n - 1, client);
      TableBounded(s, run, i, client);
    }
  }

  /** ... and is admitted one second past the wait, unless it was admitted in between. */
  lemma RetryInTimeInRun(s: Settings, run: seq<Request>, i: nat, j: nat)
    requires ClockNeverStepsBack(run) && i < j < |run|
    requires run[i].path !in s.excludePaths && IsOf(s, run[j], ClientKey(run[i]))
    requires OutcomeAt(s, run, i).Rejected? && NoneAdmittedBetween(s, run, i, j, ClientKey(run[i]))
    requires run[j].now >= run[i].now + OutcomeAt(s, run, i).retryAfter as real + 1.0
    ensures OutcomeAt(s, run, j).Admitted?
  {
    var client := ClientKey(run[i]);
    var k, before, mine := |Mine(s, run, i, client)|, Mine(s, run, j, client), Mine(s, run, j + 1, client);
    AnswerKept(s, run, i, j);
    AnswerKept(s, run, i, j + 1);
    AnswerIsPerClient(s, run, j);
    MineNonDecreasing(s, run, j + 1, client, run[j].now);
    forall x | k <= x < |before| ensures RejectedAt(s, mine, x) {
      AllRejectedSince(s, run, i, j, x);
      StoredOfPrefix(s, before, [run[j].now], x);
    }
    RetryInTimeIsAdmitted(s, mine, k, |before|);
  }
}
