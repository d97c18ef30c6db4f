/** How far back the clock may step before the advertised limit is lost. */
module RateLimiterClock {
  import opened Common
  import opened RateLimiter
  import opened RateLimiterRuns
  import opened RateLimiterClients

  /** Every reading is at most `tolerance` behind every earlier one; with tolerance 0 the clock never steps back. */
  ghost predicate StepsBackAtMost(a: seq<real>, tolerance: real) {
    forall i, j :: 0 <= i <= j < |a| ==> a[j] >= a[i] - tolerance
  }

  /** At most the limit in both half-open windows at every offset. */
  ghost predicate WithinLimit(s: Settings, log: seq<real>) {
    forall from: real ::
      && CountIf(log, After(from, s.Window())) <= Bound(s)
      && CountIf(log, NotBefore(from, s.Window())) <= Bound(s)
  }

  /** What one client is granted over the whole run stays within the limit. */
  ghost predicate RunWithinLimit(s: Settings, a: seq<real>) {
    WithinLimit(s, Log(s, a, |a|))
  }

  // ---- Settings for which no clock breaks the limit ----

  /** With limit 1 the list holds the last admission and nothing else. */
  lemma {:induction false} LimitOneStoresLast(s: Settings, a: seq<real>, n: nat)
    requires s.maxRequests == 1 && n <= |a|
    ensures var log := Log(s, a, n);
            Stored(s, a, n) == if log == [] then [] else [log[|log| - 1]]
  {
    if n > 0 {
      LimitOneStoresLast(s, a, n - 1);
      var before := Stored(s, a, n - 1);
      PruneShortens(before, |before|, a[n - 1] - s.Window());
      if before != [] && before[0] > a[n - 1] - s.Window() {
        PruneKeepsAll(before, |before|, a[n - 1] - s.Window());
      }
    }
  }

  /** So an admission comes at least one window after the one before it. */
  lemma LimitOneGap(s: Settings, a: seq<real>, i: nat)
    requires s.maxRequests == 1 && i < |a|
    ensures var log := Log(s, a, i);
            AdmittedAt(s, a, i) && log != [] ==> log[|log| - 1] + s.Window() <= a[i]
  {
    LimitOneStoresLast(s, a, i);
    var before := Stored(s, a, i);
    if before != [] && before[0] > a[i] - s.Window() {
      PruneKeepsAll(before, |before|, a[i] - s.Window());
    }
  }

  /** Each time at least `window` after the one before, and therefore after all before. */
  ghost predicate Separated(ts: seq<real>, window: real) {
    forall i, j :: 0 <= i < j < |ts| ==> ts[i] + window <= ts[j]
  }

  lemma SeparatedSnoc(ts: seq<real>, t: real, window: real)
    requires Separated(ts, window) && window >= 0.0 && (ts != [] ==> ts[|ts| - 1] + window <= t)
    ensures Separated(ts + [t], window)
  {
    forall i, j | 0 <= i < j < |ts + [t]| ensures (ts + [t])[i] + window <= (ts + [t])[j] {
      if j == |ts| && i < |ts| - 1 {
        assert ts[i] + window <= ts[|ts| - 1];
      }
    }
  }

  /** With limit 1 admissions are sorted and separated whatever the clock does. */
  lemma {:induction false} LimitOneSeparates(s: Settings, a: seq<real>, n: nat)
    requires s.maxRequests == 1 && s.windowSeconds > 0 && n <= |a|
    ensures Separated(Log(s, a, n), s.Window())
  {
    if n > 0 {
      LimitOneSeparates(s, a, n - 1);
      if AdmittedAt(s, a, n - 1) {
        LimitOneGap(s, a, n - 1);
        SeparatedSnoc(Log(s, a, n - 1), a[n - 1], s.Window());
      }
    }
  }

  /** Times at least one window apart never meet in a window. */
  lemma {:induction false} SeparatedCount(log: seq<real>, n: nat, window: real, inSpan: real -> bool)
    requires n <= |log| && Separated(log, window)
    requires forall x, y :: inSpan(x) && inSpan(y) ==> x - y < window
    ensures CountFirst(log, n, inSpan) <= 1
  {
    if n > 0 {
      SeparatedCount(log, n - 1, window, inSpan);
      if inSpan(log[n - 1]) {
        CountZeroIffNone(log, n - 1, inSpan);
      }
    }
  }

  /** With a limit of zero or less nothing is ever admitted. */
  lemma {:induction false} NoLimitNoLog(s: Settings, a: seq<real>, n: nat)
    requires s.maxRequests <= 0 && n <= |a|
    ensures Log(s, a, n) == []
  {
    if n > 0 {
      NoLimitNoLog(s, a, n - 1);
    }
  }

  lemma {:induction false} AnyClockSpan(s: Settings, a: seq<real>, inSpan: real -> bool)
    requires s.maxRequests <= 1 || s.windowSeconds <= 0
    requires forall x, y :: inSpan(x) && inSpan(y) ==> x - y < s.Window()
    ensures CountIf(Log(s, a, |a|), inSpan) <= Bound(s)
  {
    var log := Log(s, a, |a|);
    if s.windowSeconds <= 0 {
      assert forall x :: inSpan(x) ==> x - x < s.Window();
      CountZeroIffNone(log, |log|, inSpan);
    } else if s.maxRequests <= 0 {
      NoLimitNoLog(s, a, |a|);
    } else {
      LimitOneSeparates(s, a, |a|);
      SeparatedCount(log, |log|, s.Window(), inSpan);
    }
  }

  /** Limits up to one, and windows that are empty, hold under every clock. */
  lemma {:induction false} AnyClockWithinLimit(s: Settings, a: seq<real>)
    requires s.maxRequests <= 1 || s.windowSeconds <= 0
    ensures RunWithinLimit(s, a)
  {
    forall from: real
      ensures CountIf(Log(s, a, |a|), After(from, s.Window())) <= Bound(s)
      ensures CountIf(Log(s, a, |a|), NotBefore(from, s.Window())) <= Bound(s)
    {
      AnyClockSpan(s, a, After(from, s.Window()));
      AnyClockSpan(s, a, NotBefore(from, s.Window()));
    }
  }

  // ---- For all others every step back, however small, is enough ----

  /** A full burst, one request that evicts it, and one after the clock has stepped back from `hi` to `lo`. */
  function StepBackRun(s: Settings, hi: real, lo: real): seq<real>
    requires s.maxRequests >= 0
  {
    seq(s.maxRequests, _ => BurstTime(s, hi, lo)) + [hi, lo]
  }

  /** Late enough to share a window with `lo`, early enough to be evicted at `hi`. */
  function BurstTime(s: Settings, hi: real, lo: real): real {
    if hi - s.Window() <= lo then hi - s.Window() else lo
  }

  /** A burst up to the limit is admitted entirely, and counts entirely wherever its instant counts. */
  lemma {:induction false} BurstAdmitted(s: Settings, a: seq<real>, n: nat, t: real, p: real -> bool)
    requires s.windowSeconds > 0 && n <= |a| && n <= s.maxRequests && p(t)
    requires forall i :: 0 <= i < n ==> a[i] == t
    ensures |Stored(s, a, n)| == n && forall i :: 0 <= i < n ==> Stored(s, a, n)[i] == t
    ensures CountIf(Log(s, a, n), p) == n
  {
    if n > 0 {
      BurstAdmitted(s, a, n - 1, t, p);
      PruneKeepsAll(Stored(s, a, n - 1), n - 1, t - s.Window());
      CountIfSnoc(Log(s, a, n - 1), t, p);
    }
  }

  /** The request at `hi` finds the burst evicted, and the one at `lo` finds only the request at `hi`. */
  lemma StepBackAdmitted(s: Settings, hi: real, lo: real, p: real -> bool)
    requires s.maxRequests >= 2 && s.windowSeconds > 0 && hi > lo
    requires p(BurstTime(s, hi, lo)) && p(lo) && !p(hi)
    ensures CountIf(Log(s, StepBackRun(s, hi, lo), s.maxRequests + 2), p) == s.maxRequests + 1
  {
    var a, m, t := StepBackRun(s, hi, lo), s.maxRequests, BurstTime(s, hi, lo);
    BurstAdmitted(s, a, m, t, p);
    PruneAllOld(Stored(s, a, m), m, hi - s.Window());
    assert Stored(s, a, m + 1) == [hi];
    PruneShortens([hi], 1, lo - s.Window());
    CountIfSnoc(Log(s, a, m), hi, p);
    CountIfSnoc(Log(s, a, m + 1), lo, p);
  }

  lemma {:induction false} PruneAllOld(ts: seq<real>, n: nat, start: real)
    requires n <= |ts| && forall i :: 0 <= i < n ==> ts[i] <= start
    ensures PruneFirst(ts, n, start) == []
  {
    if n > 0 {
      PruneAllOld(ts, n - 1, start);
    }
  }

  /**
   * Any limit of two or more is exceeded by every step back: the run steps back only once, from `hi` to `lo`,
   * and puts one admission too many in a window of either kind.
   */
  lemma StepBackExceedsLimit(s: Settings, hi: real, lo: real)
    requires s.maxRequests >= 2 && s.windowSeconds > 0 && hi > lo
    ensures var a := StepBackRun(s, hi, lo);
            && StepsBackAtMost(a, hi - lo) && NonDecreasing(a[..|a| - 1])
            && CountIf(Log(s, a, |a|), After(lo - s.Window(), s.Window())) == s.maxRequests + 1
            && CountIf(Log(s, a, |a|), NotBefore(BurstTime(s, hi, lo), s.Window())) == s.maxRequests + 1
  {
    StepBackAdmitted(s, hi, lo, After(lo - s.Window(), s.Window()));
    StepBackAdmitted(s, hi, lo, NotBefore(BurstTime(s, hi, lo), s.Window()));
  }

  // ---- The exact condition ----

  /**
   * The advertised limit holds on every run of a clock exactly when the clock never steps back, or the limit is at
   * most one, or the window is empty.
   */
  lemma WithinLimitIff(s: Settings, tolerance: real)
    requires tolerance >= 0.0
    ensures (forall a: seq<real> :: StepsBackAtMost(a, tolerance) ==> RunWithinLimit(s, a))
       <==> tolerance == 0.0 || s.maxRequests <= 1 || s.windowSeconds <= 0
  {
    if tolerance == 0.0 || s.maxRequests <= 1 || s.windowSeconds <= 0 {
      forall a: seq<real> | StepsBackAtMost(a, tolerance) ensures RunWithinLimit(s, a) {
        ToleratedWithinLimit(s, a, tolerance);
      }
    } else {
      var a := StepBackRun(s, tolerance, 0.0);
      StepBackExceedsLimit(s, tolerance, 0.0);
      assert StepsBackAtMost(a, tolerance) && !RunWithinLimit(s, a);
    }
  }

  lemma {:induction false} ToleratedWithinLimit(s: Settings, a: seq<real>, tolerance: real)
    requires StepsBackAtMost(a, tolerance)
    requires tolerance == 0.0 || s.maxRequests <= 1 || s.windowSeconds <= 0
    ensures RunWithinLimit(s, a)
  {
    if s.maxRequests <= 1 || s.windowSeconds <= 0 {
      AnyClockWithinLimit(s, a);
    } else {
      NonDecreasingRevivesNothing(s, a, |a|);
      forall from: real
        ensures CountIf(Log(s, a, |a|), After(from, s.Window())) <= Bound(s)
        ensures CountIf(Log(s, a, |a|), NotBefore(from, s.Window())) <= Bound(s)
      {
        WindowBound(s, a, |a|, from);
      }
    }
  }

  /** Without any assumption on the clock only the settings are left to decide. */
  lemma WithinLimitUnderEveryClockIff(s: Settings)
    ensures (forall a: seq<real> :: RunWithinLimit(s, a)) <==> s.maxRequests <= 1 || s.windowSeconds <= 0
  {
    if s.maxRequests <= 1 || s.windowSeconds <= 0 {
      forall a: seq<real> ensures RunWithinLimit(s, a) {
        AnyClockWithinLimit(s, a);
      }
    } else {
      WithinLimitIff(s, 1.0);
    }
  }

  /** Half a second is enough: three admissions in (99, 109] under limit 2. */
  lemma HalfSecondStepBack()
    ensures var s, a := Settings(2, 10, DEFAULT_EXCLUDED), [99.5, 99.5, 109.5, 109.0];
            a == StepBackRun(s, 109.5, 109.0) && CountIf(Log(s, a, |a|), After(99.0, s.Window())) == 3
  {
    StepBackExceedsLimit(Settings(2, 10, DEFAULT_EXCLUDED), 109.5, 109.0);
  }

  // ---- Interleaved runs ----

  ghost predicate RunStepsBackAtMost(run: seq<Request>, tolerance: real) {
    forall i, j :: 0 <= i <= j < |run| ==> run[j].now >= run[i].now - tolerance
  }

  lemma {:induction false} MineIsOfRun(s: Settings, run: seq<Request>, n: nat, client: string, k: nat)
    requires n <= |run| && k < |Mine(s, run, n, client)|
    ensures exists i :: 0 <= i < n && run[i].now == Mine(s, run, n, client)[k]
  {
    if k < |Mine(s, run, n - 1, client)| {
      MineIsOfRun(s, run, n - 1, client, k);
    } else {
      assert run[n - 1].now == Mine(s, run, n, client)[k];
    }
  }

  lemma {:induction false} MineStepsBackAtMost(
    s: Settings, run: seq<Request>, n: nat, client: string, tolerance: real)
    requires n <= |run| && tolerance >= 0.0 && RunStepsBackAtMost(run, tolerance)
    ensures StepsBackAtMost(Mine(s, run, n, client), tolerance)
  {
    if n > 0 {
      var before, mine := Mine(s, run, n - 1, client), Mine(s, run, n, client);
      MineStepsBackAtMost(s, run, n - 1, client, tolerance);
      forall i, j | 0 <= i <= j < |mine| ensures mine[j] >= mine[i] - tolerance {
        if i < |before| == j {
          MineIsOfRun(s, run, n - 1, client, i);
        }
      }
    }
  }

  /** One client without a peer address asking for `path` at the given times. */
  function SoloRun(path: string, a: seq<real>): seq<Request> {
    seq(|a|, i requires 0 <= i < |a| => Request(path, None, a[i]))
  }

  lemma {:induction false} SoloRunIsMine(s: Settings, path: string, a: seq<real>, n: nat)
    requires path !in s.excludePaths && n <= |a|
    ensures Mine(s, SoloRun(path, a), n, "unknown") == a[..n]
  {
    if n > 0 {
      SoloRunIsMine(s, path, a, n - 1);
    }
  }

  /** Every client of the run stays within the limit. */
  ghost predicate ClientsWithinLimit(s: Settings, run: seq<Request>) {
    forall client: string :: WithinLimit(s, AdmittedTimes(s, run, |run|, client))
  }

  /** The same exact condition for every client of every interleaved run; `path` is any path not excluded. */
  lemma ClientsWithinLimitIff(s: Settings, path: string, tolerance: real)
    requires tolerance >= 0.0 && path !in s.excludePaths
    ensures (forall run: seq<Request> :: RunStepsBackAtMost(run, tolerance) ==> ClientsWithinLimit(s, run))
       <==> tolerance == 0.0 || s.maxRequests <= 1 || s.windowSeconds <= 0
  {
    if tolerance == 0.0 || s.maxRequests <= 1 || s.windowSeconds <= 0 {
      forall run: seq<Request>, client: string | RunStepsBackAtMost(run, tolerance)
        ensures WithinLimit(s, AdmittedTimes(s, run, |run|, client))
      {
        MineStepsBackAtMost(s, run, |run|, client, tolerance);
        ToleratedWithinLimit(s, Mine(s, run, |run|, client), tolerance);
        AdmittedTimesArePerClient(s, run, |run|, client);
      }
    } else {
      var a := StepBackRun(s, tolerance, 0.0);
      var run := SoloRun(path, a);
      StepBackExceedsLimit(s, tolerance, 0.0);
      SoloRunIsMine(s, path, a, |a|);
      AdmittedTimesArePerClient(s, run, |run|, "unknown");
      assert a[..|a|] == a && !WithinLimit(s, AdmittedTimes(s, run, |run|, "unknown"));
      assert RunStepsBackAtMost(run, tolerance);
    }
  }
}
