/** Every answer of an interleaved run, in terms of the requests themselves and the answers before it. */
module RateLimiterAnswers {
  import opened Common
  import opened RateLimiter
  import opened RateLimiterRuns
  import opened RateLimiterClients

  /** Requests that share a list: they have the same peer address, a missing one counting as "unknown". */
  predicate SamePeer(r: Request, q: Request) {
    || r.client == q.client
    || (r.client == None && q.client == Some("unknown"))
    || (r.client == Some("unknown") && q.client == None)
  }

  /** Request `j` was of the peer of `r` and admitted within the window that ends with `r`. */
  ghost predicate IsRecent(s: Settings, run: seq<Request>, j: nat, r: Request)
    requires j < |run|
  {
    SamePeer(run[j], r) && OutcomeAt(s, run, j).Admitted? && run[j].now > r.now - s.windowSeconds as real
  }

  ghost function Recent(s: Settings, run: seq<Request>, n: nat, r: Request): set<nat>
    requires n <= |run|
  {
    set j: nat | j < n && IsRecent(s, run, j, r)
  }

  lemma RecentStep(s: Settings, run: seq<Request>, n: nat, r: Request)
    requires 0 < n <= |run|
    ensures Recent(s, run, n, r)
         == if IsRecent(s, run, n - 1, r) then Recent(s, run, n - 1, r) + {n - 1} else Recent(s, run, n - 1, r)
  {
  }

  lemma RecentSize(s: Settings, run: seq<Request>, n: nat, r: Request)
    requires 0 < n <= |run|
    ensures |Recent(s, run, n, r)| == |Recent(s, run, n - 1, r)| + if IsRecent(s, run, n - 1, r) then 1 else 0
  {
    RecentStep(s, run, n, r);
    assert n - 1 !in Recent(s, run, n - 1, r);
  }

  /** What the pruned log of a client keeps of the first `n` requests. */
  function KeptOf(s: Settings, run: seq<Request>, n: nat, r: Request): seq<real>
    requires n <= |run|
  {
    Prune(AdmittedTimes(s, run, n, ClientKey(r)), r.now - s.Window())
  }

  lemma KeptStep(s: Settings, run: seq<Request>, n: nat, r: Request)
    requires 0 < n <= |run|
    ensures KeptOf(s, run, n, r)
         == if IsRecent(s, run, n - 1, r) then KeptOf(s, run, n - 1, r) + [run[n - 1].now] else KeptOf(s, run, n - 1, r)
  {
    PruneSnoc(AdmittedTimes(s, run, n - 1, ClientKey(r)), run[n - 1].now, r.now - s.Window());
  }

  /** Recent requests are what the pruned log keeps. */
  lemma {:induction false} RecentAreKept(s: Settings, run: seq<Request>, n: nat, r: Request)
    requires n <= |run|
    ensures |Recent(s, run, n, r)| == |KeptOf(s, run, n, r)|
  {
    if n > 0 {
      RecentAreKept(s, run, n - 1, r);
      RecentSize(s, run, n, r);
      KeptStep(s, run, n, r);
    }
  }

  lemma RecentAreCounted(s: Settings, run: seq<Request>, n: nat, r: Request)
    requires n <= |run|
    ensures |Recent(s, run, n, r)| == CountIf(AdmittedTimes(s, run, n, ClientKey(r)), t => t > r.now - s.Window())
  {
    var log := AdmittedTimes(s, run, n, ClientKey(r));
    RecentAreKept(s, run, n, r);
    PruneLengthIsCount(log, |log|, r.now - s.Window());
  }

  /** `j` is the oldest of the recent requests. */
  ghost predicate Oldest(run: seq<Request>, recent: set<nat>, j: nat) {
    && j in recent && j < |run|
    && forall k :: k in recent && k < |run| ==> run[j].now <= run[k].now
  }

  lemma OldestStays(run: seq<Request>, recent: set<nat>, j: nat, n: nat)
    requires ClockNeverStepsBack(run) && n < |run| && Oldest(run, recent, j) && j <= n
    ensures Oldest(run, recent + {n}, j)
  {
  }

  ghost predicate OldestAt(s: Settings, run: seq<Request>, n: nat, r: Request, now: real)
    requires n <= |run|
  {
    exists j: nat :: j < n && Oldest(run, Recent(s, run, n, r), j) && run[j].now == now
  }

  lemma OldestStep(s: Settings, run: seq<Request>, n: nat, r: Request, now: real)
    requires ClockNeverStepsBack(run) && 0 < n <= |run| && OldestAt(s, run, n - 1, r, now)
    ensures OldestAt(s, run, n, r, now)
  {
    var j: nat :| j < n - 1 && Oldest(run, Recent(s, run, n - 1, r), j) && run[j].now == now;
    RecentStep(s, run, n, r);
    OldestStays(run, Recent(s, run, n - 1, r), j, n - 1);
    assert Oldest(run, Recent(s, run, n, r), j);
  }

  lemma OnlyOneIsOldest(s: Settings, run: seq<Request>, n: nat, r: Request)
    requires 0 < n <= |run| && Recent(s, run, n, r) == {n - 1}
    ensures OldestAt(s, run, n, r, run[n - 1].now)
  {
    assert Oldest(run, Recent(s, run, n, r), n - 1);
  }

  /** The first time the pruned log keeps is that of the oldest recent request. */
  lemma {:induction false} FirstKeptIsOldest(s: Settings, run: seq<Request>, n: nat, r: Request)
    requires ClockNeverStepsBack(run) && n <= |run|
    ensures KeptOf(s, run, n, r) != [] ==> OldestAt(s, run, n, r, KeptOf(s, run, n, r)[0])
  {
    if n > 0 {
      var before := KeptOf(s, run, n - 1, r);
      FirstKeptIsOldest(s, run, n - 1, r);
      KeptStep(s, run, n, r);
      if before != [] {
        OldestStep(s, run, n, r, before[0]);
      } else if IsRecent(s, run, n - 1, r) {
        RecentAreKept(s, run, n - 1, r);
        RecentStep(s, run, n, r);
        OnlyOneIsOldest(s, run, n, r);
      }
    }
  }

  /** The list the call sees is the log of the client cut to the window. */
  lemma KeptIsLog(s: Settings, run: seq<Request>, i: nat)
    requires ClockNeverStepsBack(run) && i < |run| && run[i].path !in s.excludePaths
    ensures Kept(s, Lookup(TableAfter(s, run, i), ClientKey(run[i])), run[i].now)
         == KeptOf(s, run, i, run[i])
  {
    var client := ClientKey(run[i]);
    var mine := Mine(s, run, i, client);
    TableIsPerClient(s, run, i, client);
    AdmittedTimesArePerClient(s, run, i, client);
    MineNonDecreasing(s, run, i, client, run[i].now);
    PruningIsInvisible(s, mine, |mine|, run[i].now - s.Window());
  }

  /**
   * All that `dispatch` does, request by request: excluded paths pass; the others pass exactly while fewer than the
   * limit of the peer's requests were admitted in the window; and who is turned away is told, in whole seconds
   * rounded down, how long it is until the oldest of those leaves the window.
   */
  lemma AnswerOf(s: Settings, run: seq<Request>, i: nat)
    requires ClockNeverStepsBack(run) && i < |run|
    ensures var o, recent := OutcomeAt(s, run, i), Recent(s, run, i, run[i]);
            && (o.Bypassed? <==> run[i].path in s.excludePaths)
            && (o.Admitted? <==> run[i].path !in s.excludePaths && |recent| < s.maxRequests)
            && (o.IndexFault? <==> run[i].path !in s.excludePaths && s.maxRequests <= 0)
            && (o.Rejected? ==> WaitsForOldest(s, run, i, o.retryAfter))
  {
    TableBounded(s, run, i, ClientKey(run[i]));
    if run[i].path !in s.excludePaths {
      AdmittedIffRoom(s, run, i);
      RecentAreCounted(s, run, i, run[i]);
      if OutcomeAt(s, run, i).Rejected? {
        RejectedWaitsForOldest(s, run, i);
      }
    }
  }

  /** `seconds` is, rounded down, the time until the oldest of the recent requests leaves the window. */
  ghost predicate WaitsForOldest(s: Settings, run: seq<Request>, i: nat, seconds: int)
    requires i < |run|
  {
    exists j: nat :: j < i && Oldest(run, Recent(s, run, i, run[i]), j)
      && var wait := run[j].now + s.windowSeconds as real - run[i].now;
         0.0 <= seconds as real <= wait < seconds as real + 1.0
  }

  lemma RejectedWaitsForOldest(s: Settings, run: seq<Request>, i: nat)
    requires ClockNeverStepsBack(run) && i < |run| && OutcomeAt(s, run, i).Rejected?
    ensures WaitsForOldest(s, run, i, OutcomeAt(s, run, i).retryAfter)
  {
    KeptIsLog(s, run, i);
    FirstKeptIsOldest(s, run, i, run[i]);
    var log := AdmittedTimes(s, run, i, ClientKey(run[i]));
    PruneStaysAbove(log, |log|, run[i].now - s.Window());
  }

  // ---- Peers never see each other ----

  /** Of the first `n` requests, those that share the list of `r`. */
  function OfPeer(run: seq<Request>, n: nat, r: Request): seq<Request>
    requires n <= |run|
  {
    if n == 0 then []
    else if SamePeer(run[n - 1], r) then OfPeer(run, n - 1, r) + [run[n - 1]]
    else OfPeer(run, n - 1, r)
  }

  lemma {:induction false} MineOfPrefix(s: Settings, run: seq<Request>, q: Request, n: nat, client: string)
    requires n <= |run|
    ensures Mine(s, run + [q], n, client) == Mine(s, run, n, client)
  {
    if n > 0 {
      MineOfPrefix(s, run, q, n - 1, client);
    }
  }

  lemma {:induction false} MineIsOfPeer(s: Settings, run: seq<Request>, n: nat, r: Request)
    requires n <= |run|
    ensures var own := OfPeer(run, n, r);
            Mine(s, run, n, ClientKey(r)) == Mine(s, own, |own|, ClientKey(r))
  {
    if n > 0 {
      var before := OfPeer(run, n - 1, r);
      MineIsOfPeer(s, run, n - 1, r);
      if SamePeer(run[n - 1], r) {
        MineOfPrefix(s, before, run[n - 1], |before|, ClientKey(r));
      }
    }
  }

  /** Under any clock, an answer depends on the request and the earlier requests of its own peer and nothing else. */
  lemma {:induction false} AnswerDependsOnPeer(s: Settings, run: seq<Request>, i: nat, other: seq<Request>, k: nat)
    requires i < |run| && k < |other| && run[i] == other[k]
    requires OfPeer(run, i, run[i]) == OfPeer(other, k, run[i])
    ensures OutcomeAt(s, run, i) == OutcomeAt(s, other, k)
  {
    var r := run[i];
    if r.path !in s.excludePaths {
      MineIsOfPeer(s, run, i, r);
      MineIsOfPeer(s, other, k, r);
      AnswerIsPerClient(s, run, i);
      AnswerIsPerClient(s, other, k);
    }
  }

  /** Of the first `n` requests, those with exactly this `client` field. */
  function WithClient(run: seq<Request>, n: nat, client: Option<string>): seq<Request>
    requires n <= |run|
  {
    if n == 0 then []
    else if run[n - 1].client == client then WithClient(run, n - 1, client) + [run[n - 1]]
    else WithClient(run, n - 1, client)
  }

  lemma {:induction false} AddressIsPeer(run: seq<Request>, n: nat, r: Request)
    requires n <= |run| && r.client.Some? && r.client.value != "unknown"
    ensures OfPeer(run, n, r) == WithClient(run, n, r.client)
  {
    if n > 0 {
      AddressIsPeer(run, n - 1, r);
    }
  }

  /** For a known address the peer is that address alone. */
  lemma AnswerDependsOnAddress(s: Settings, run: seq<Request>, i: nat, other: seq<Request>, k: nat)
    requires i < |run| && k < |other| && run[i] == other[k]
    requires run[i].client.Some? && run[i].client.value != "unknown"
    requires WithClient(run, i, run[i].client) == WithClient(other, k, run[i].client)
    ensures OutcomeAt(s, run, i) == OutcomeAt(s, other, k)
  {
    AddressIsPeer(run, i, run[i]);
    AddressIsPeer(other, k, run[i]);
    AnswerDependsOnPeer(s, run, i, other, k);
  }

  /** Under any clock and whatever others do, the first request of an address is admitted if any request can be. */
  lemma FirstOfAddressIsAdmitted(s: Settings, run: seq<Request>, i: nat)
    requires i < |run| && run[i].path !in s.excludePaths && s.maxRequests > 0
    requires run[i].client.Some? && run[i].client.value != "unknown"
    requires forall j :: 0 <= j < i ==> run[j].client != run[i].client
    ensures OutcomeAt(s, run, i) == Admitted
  {
    NoneWithClient(run, i, run[i].client);
    AnswerDependsOnAddress(s, run, i, [run[i]], 0);
    assert TableAfter(s, [run[i]], 0) == map[];
  }

  lemma {:induction false} NoneWithClient(run: seq<Request>, n: nat, client: Option<string>)
    requires n <= |run| && forall j :: 0 <= j < n ==> run[j].client != client
    ensures WithClient(run, n, client) == []
  {
    if n > 0 {
      NoneWithClient(run, n - 1, client);
    }
  }
}
