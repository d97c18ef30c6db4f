/** The greedy rule of the limiter against every other way of respecting the advertised limit. */
module RateLimiterOptimality {
  import opened RateLimiter
  import opened RateLimiterRuns

  /** The times a schedule serves among the first `n` arrivals; `pick[i]` says whether arrival i is served. */
  function PickTimes(a: seq<real>, pick: seq<bool>, n: nat): seq<real>
    requires n <= |a| == |pick|
  {
    if n == 0 then []
    else if pick[n - 1] then PickTimes(a, pick, n - 1) + [a[n - 1]]
    else PickTimes(a, pick, n - 1)
  }

  /** Serves at most the limit in every window (from, from + W]. */
  ghost predicate Legal(s: Settings, a: seq<real>, pick: seq<bool>)
    requires |a| == |pick|
  {
    forall from: real :: CountIf(PickTimes(a, pick, |a|), After(from, s.Window())) <= s.maxRequests
  }

  /** The schedule the limiter follows. */
  function Greedy(s: Settings, a: seq<real>): seq<bool> {
    seq(|a|, i requires 0 <= i < |a| => AdmittedAt(s, a, i))
  }

  lemma {:induction false} GreedyServesTheLog(s: Settings, a: seq<real>, n: nat)
    requires n <= |a|
    ensures PickTimes(a, Greedy(s, a), n) == Log(s, a, n)
  {
    if n > 0 {
      GreedyServesTheLog(s, a, n - 1);
    }
  }

  /** The limiter's own schedule is legal. */
  lemma GreedyIsLegal(s: Settings, a: seq<real>)
    requires NonDecreasing(a) && s.maxRequests >= 0
    ensures Legal(s, a, Greedy(s, a))
  {
    GreedyServesTheLog(s, a, |a|);
    NonDecreasingRevivesNothing(s, a, |a|);
    forall from: real
      ensures CountIf(PickTimes(a, Greedy(s, a), |a|), After(from, s.Window())) <= s.maxRequests
    {
      WindowBound(s, a, |a|, from);
    }
  }

  /** Serving only grows: whatever is counted among the first m is counted among the first n. */
  lemma {:induction false} PickCountGrows(a: seq<real>, pick: seq<bool>, m: nat, n: nat, p: real -> bool)
    requires m <= n <= |a| == |pick|
    ensures CountIf(PickTimes(a, pick, m), p) <= CountIf(PickTimes(a, pick, n), p)
  {
    if m < n {
      PickCountGrows(a, pick, m, n - 1, p);
      CountIfSnoc(PickTimes(a, pick, n - 1), a[n - 1], p);
    }
  }

  /** If every arrival from m on satisfies p, what is served from m on is all counted by p. */
  lemma {:induction false} PicksAfter(a: seq<real>, pick: seq<bool>, m: nat, n: nat, p: real -> bool)
    requires m <= n <= |a| == |pick|
    requires forall i :: m <= i < n ==> p(a[i])
    ensures |PickTimes(a, pick, n)| <= |PickTimes(a, pick, m)| + CountIf(PickTimes(a, pick, n), p)
  {
    if m < n {
      PicksAfter(a, pick, m, n - 1, p);
      CountIfSnoc(PickTimes(a, pick, n - 1), a[n - 1], p);
    }
  }

  lemma {:induction false} OldLogIsPruned(s: Settings, a: seq<real>, m: nat, start: real)
    requires m <= |a| && forall i :: 0 <= i < m ==> a[i] <= start
    ensures Prune(Log(s, a, m), start) == []
  {
    if m > 0 {
      OldLogIsPruned(s, a, m - 1, start);
      PruneSnoc(Log(s, a, m - 1), a[m - 1], start);
    }
  }

  /** Everything the log keeps in the window was admitted after the first m arrivals, which lie before it. */
  lemma {:induction false} LogSplits(s: Settings, a: seq<real>, m: nat, n: nat, start: real)
    requires m <= n <= |a| && forall i :: 0 <= i < m ==> a[i] <= start
    ensures |Log(s, a, n)| >= |Log(s, a, m)| + |Prune(Log(s, a, n), start)|
  {
    if m == n {
      OldLogIsPruned(s, a, m, start);
    } else {
      LogSplits(s, a, m, n - 1, start);
      PruneSnoc(Log(s, a, n - 1), a[n - 1], start);
    }
  }

  /** How many arrivals of a sorted list are at or before `start`. */
  ghost function CutPoint(a: seq<real>, n: nat, start: real): (m: nat)
    requires NonDecreasing(a) && n <= |a|
    ensures m <= n
    ensures forall i :: 0 <= i < m ==> a[i] <= start
    ensures forall i :: m <= i < n ==> a[i] > start
  {
    if n == 0 || a[n - 1] <= start then n else CutPoint(a, n - 1, start)
  }

  /** What a legal schedule serves after the cut fits in one window, so it is at most the limit. */
  lemma LegalAfterCut(s: Settings, a: seq<real>, pick: seq<bool>, m: nat, n: nat)
    requires NonDecreasing(a) && m < n <= |a| == |pick| && Legal(s, a, pick)
    requires forall i :: m <= i < n ==> a[i] > a[n - 1] - s.Window()
    ensures |PickTimes(a, pick, n)| <= |PickTimes(a, pick, m)| + s.maxRequests
  {
    var window := After(a[n - 1] - s.Window(), s.Window());
    PicksAfter(a, pick, m, n, window);
    PickCountGrows(a, pick, n, |a|, window);
  }

  /** When the limiter turns arrival n-1 down it has already admitted the limit after the cut. */
  lemma {:induction false} RefusalAfterCut(s: Settings, a: seq<real>, m: nat, n: nat)
    requires NonDecreasing(a) && m < n <= |a| && !AdmittedAt(s, a, n - 1)
    requires forall i :: 0 <= i < m ==> a[i] <= a[n - 1] - s.Window()
    ensures |Log(s, a, n)| >= |Log(s, a, m)| + s.maxRequests
  {
    AdmittedIffRoomInFullLog(s, a, n - 1);
    LogSplits(s, a, m, n - 1, a[n - 1] - s.Window());
  }

  /** If even the present lies before the window, nothing is ever counted and a positive limit admits everything. */
  lemma NothingRefusedWithoutWindow(s: Settings, a: seq<real>, n: nat)
    requires NonDecreasing(a) && 0 < n <= |a| && a[n - 1] <= a[n - 1] - s.Window() && s.maxRequests > 0
    ensures AdmittedAt(s, a, n - 1)
  {
    OldLogIsPruned(s, a, n - 1, a[n - 1] - s.Window());
    AdmittedIffRoomInFullLog(s, a, n - 1);
  }

  /** No legal schedule serves more of any prefix of the arrivals than the limiter does. */
  lemma {:induction false} GreedyServesMost(s: Settings, a: seq<real>, pick: seq<bool>, n: nat)
    requires NonDecreasing(a) && n <= |a| == |pick| && Legal(s, a, pick)
    requires s.windowSeconds > 0 || s.maxRequests > 0
    ensures |PickTimes(a, pick, n)| <= |Log(s, a, n)|
  {
    if n > 0 {
      GreedyServesMost(s, a, pick, n - 1);
      if pick[n - 1] && !AdmittedAt(s, a, n - 1) {
        var m := CutPoint(a, n, a[n - 1] - s.Window());
        if m == n {
          NothingRefusedWithoutWindow(s, a, n);
        }
        GreedyServesMost(s, a, pick, m);
        LegalAfterCut(s, a, pick, m, n);
        RefusalAfterCut(s, a, m, n);
      }
    }
  }

  /** The k-th request the limiter serves is never later than the k-th one of any legal schedule. */
  lemma {:induction false} GreedyServesEarliest(s: Settings, a: seq<real>, pick: seq<bool>, n: nat, k: nat)
    requires NonDecreasing(a) && n <= |a| == |pick| && Legal(s, a, pick)
    requires s.windowSeconds > 0 || s.maxRequests > 0
    requires k < |PickTimes(a, pick, n)|
    ensures k < |Log(s, a, n)| && Log(s, a, n)[k] <= PickTimes(a, pick, n)[k]
  {
    if k < |PickTimes(a, pick, n - 1)| {
      GreedyServesEarliest(s, a, pick, n - 1, k);
    } else {
      GreedyServesMost(s, a, pick, n);
      LogSorted(s, a, n, a[n - 1]);
    }
  }
}
