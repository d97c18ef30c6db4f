/** What the limiter does to one client over any sequence of that client's requests. */
module RateLimiterRuns {
  import opened RateLimiter

  ghost predicate NonDecreasing(ts: seq<real>) {
    forall i, j :: 0 <= i <= j < |ts| ==> ts[i] <= ts[j]
  }

  // In all that follows `a` lists the arrival times of one client and `n` counts how many have been handled.

  /** The client's stored list after `n` arrivals. */
  function Stored(s: Settings, a: seq<real>, n: nat): seq<real>
    requires n <= |a|
  {
    if n == 0 then [] else NextList(s, Stored(s, a, n - 1), a[n - 1])
  }

  predicate AdmittedAt(s: Settings, a: seq<real>, i: nat)
    requires i < |a|
  {
    Admits(s, Stored(s, a, i), a[i])
  }

  function Answer(s: Settings, a: seq<real>, i: nat): Outcome
    requires i < |a|
  {
    Decide(s, Stored(s, a, i), a[i])
  }

  /** Every time admitted among the first `n` arrivals, in order and never pruned. */
  function Log(s: Settings, a: seq<real>, n: nat): seq<real>
    requires n <= |a|
  {
    if n == 0 then []
    else if AdmittedAt(s, a, n - 1) then Log(s, a, n - 1) + [a[n - 1]]
    else Log(s, a, n - 1)
  }

  /** Of the first `n` timestamps, those `PruneFirst` throws away, in order. */
  ghost function ExpiredFirst(ts: seq<real>, n: nat, start: real): seq<real>
    requires n <= |ts|
  {
    if n == 0 then []
    else if ts[n - 1] > start then ExpiredFirst(ts, n - 1, start)
    else ExpiredFirst(ts, n - 1, start) + [ts[n - 1]]
  }

  /** Everything pruning has thrown away while handling the first `n` arrivals. */
  ghost function Evicted(s: Settings, a: seq<real>, n: nat): seq<real>
    requires n <= |a|
  {
    if n == 0 then []
    else
      var before := Stored(s, a, n - 1);
      Evicted(s, a, n - 1) + ExpiredFirst(before, |before|, a[n - 1] - s.Window())
  }

  function Bound(s: Settings): nat {
    if s.maxRequests < 0 then 0 else s.maxRequests
  }

  /** How many of the first `n` instants satisfy `p`. */
  ghost function CountFirst(ts: seq<real>, n: nat, p: real -> bool): nat
    requires n <= |ts|
  {
    if n == 0 then 0 else CountFirst(ts, n - 1, p) + if p(ts[n - 1]) then 1 else 0
  }

  ghost function CountIf(ts: seq<real>, p: real -> bool): nat {
    CountFirst(ts, |ts|, p)
  }

  // ---- Facts about pruning and counting ----

  lemma {:induction false} PruneFirstOfPrefix(ts: seq<real>, more: seq<real>, n: nat, start: real)
    requires n <= |ts|
    ensures PruneFirst(ts + more, n, start) == PruneFirst(ts, n, start)
  {
    if n > 0 {
      PruneFirstOfPrefix(ts, more, n - 1, start);
    }
  }

  lemma PruneSnoc(ts: seq<real>, t: real, start: real)
    ensures Prune(ts + [t], start) == if t > start then Prune(ts, start) + [t] else Prune(ts, start)
  {
    PruneFirstOfPrefix(ts, [t], |ts|, start);
  }

  lemma {:induction false} PruneShortens(ts: seq<real>, n: nat, start: real)
    requires n <= |ts|
    ensures |PruneFirst(ts, n, start)| <= n
    ensures n > 0 && ts[0] <= start ==> |PruneFirst(ts, n, start)| < n
  {
    if n > 0 {
      PruneShortens(ts, n - 1, start);
    }
  }

  lemma {:induction false} PruneTwice(ts: seq<real>, n: nat, first: real, second: real)
    requires n <= |ts| && first <= second
    ensures Prune(PruneFirst(ts, n, first), second) == PruneFirst(ts, n, second)
  {
    if n > 0 {
      PruneTwice(ts, n - 1, first, second);
      PruneSnoc(PruneFirst(ts, n - 1, first), ts[n - 1], second);
    }
  }

  /** In a sorted list whose first element stays, everything stays. */
  lemma {:induction false} PruneKeepsAll(ts: seq<real>, n: nat, start: real)
    requires n <= |ts| && NonDecreasing(ts) && (ts != [] ==> ts[0] > start)
    ensures PruneFirst(ts, n, start) == ts[..n]
  {
    if n > 0 {
      PruneKeepsAll(ts, n - 1, start);
    }
  }

  lemma {:induction false} PruneStaysAbove(ts: seq<real>, n: nat, start: real)
    requires n <= |ts|
    ensures forall i :: 0 <= i < |PruneFirst(ts, n, start)| ==> PruneFirst(ts, n, start)[i] > start
  {
    if n > 0 {
      PruneStaysAbove(ts, n - 1, start);
    }
  }

  /** Sorted, and nothing later than `top`. */
  ghost predicate SortedUpTo(ts: seq<real>, top: real) {
    NonDecreasing(ts) && (ts != [] ==> ts[|ts| - 1] <= top)
  }

  lemma SortedSnoc(ts: seq<real>, t: real, top: real)
    requires SortedUpTo(ts, t) && t <= top
    ensures SortedUpTo(ts + [t], top)
  {
    forall i, j | 0 <= i <= j < |ts + [t]| ensures (ts + [t])[i] <= (ts + [t])[j] {
      if j == |ts| && i < j {
        assert ts[i] <= ts[|ts| - 1];
      }
    }
  }

  lemma {:induction false} PruneSorted(ts: seq<real>, n: nat, start: real, top: real)
    requires n <= |ts| && NonDecreasing(ts) && (n > 0 ==> ts[n - 1] <= top)
    ensures SortedUpTo(PruneFirst(ts, n, start), top)
  {
    if n > 0 {
      PruneSorted(ts, n - 1, start, ts[n - 1]);
      SortedSnoc(PruneFirst(ts, n - 1, start), ts[n - 1], top);
    }
  }

  /** A predicate that holds only above `start` counts no more than pruning at `start` keeps. */
  lemma {:induction false} PruneDominates(ts: seq<real>, n: nat, p: real -> bool, start: real)
    requires n <= |ts|
    requires forall i :: 0 <= i < n && p(ts[i]) ==> ts[i] > start
    ensures CountFirst(ts, n, p) <= |PruneFirst(ts, n, start)|
  {
    if n > 0 {
      PruneDominates(ts, n - 1, p, start);
    }
  }

  lemma {:induction false} CountFirstOfPrefix(ts: seq<real>, more: seq<real>, n: nat, p: real -> bool)
    requires n <= |ts|
    ensures CountFirst(ts + more, n, p) == CountFirst(ts, n, p)
  {
    if n > 0 {
      CountFirstOfPrefix(ts, more, n - 1, p);
    }
  }

  lemma CountIfSnoc(ts: seq<real>, t: real, p: real -> bool)
    ensures CountIf(ts + [t], p) == CountIf(ts, p) + if p(t) then 1 else 0
  {
    CountFirstOfPrefix(ts, [t], |ts|, p);
  }

  // ---- Under any clock ----

  /** The stored list never outgrows the limit, whatever the clock does. */
  lemma {:induction false} LengthBound(s: Settings, a: seq<real>, n: nat)
    requires n <= |a|
    ensures |Stored(s, a, n)| <= Bound(s)
  {
    if n > 0 {
      LengthBound(s, a, n - 1);
      PruneShortens(Stored(s, a, n - 1), |Stored(s, a, n - 1)|, a[n - 1] - s.Window());
    }
  }

  lemma {:induction false} CountIfConcat(ts: seq<real>, more: seq<real>, n: nat, p: real -> bool)
    requires n <= |more|
    ensures CountFirst(ts + more, |ts| + n, p) == CountIf(ts, p) + CountFirst(more, n, p)
  {
    if n == 0 {
      CountFirstOfPrefix(ts, more, |ts|, p);
    } else {
      CountIfConcat(ts, more, n - 1, p);
    }
  }

  lemma {:induction false} PruneSplits(ts: seq<real>, n: nat, start: real, p: real -> bool)
    requires n <= |ts|
    ensures CountIf(PruneFirst(ts, n, start), p) + CountIf(ExpiredFirst(ts, n, start), p) == CountFirst(ts, n, p)
  {
    if n > 0 {
      PruneSplits(ts, n - 1, start, p);
      CountIfSnoc(PruneFirst(ts, n - 1, start), ts[n - 1], p);
      CountIfSnoc(ExpiredFirst(ts, n - 1, start), ts[n - 1], p);
    }
  }

  lemma EvictedGrows(s: Settings, a: seq<real>, n: nat, p: real -> bool)
    requires 0 < n <= |a|
    ensures CountIf(Evicted(s, a, n), p) + CountIf(Kept(s, Stored(s, a, n - 1), a[n - 1]), p)
         == CountIf(Evicted(s, a, n - 1), p) + CountIf(Stored(s, a, n - 1), p)
  {
    var before, start := Stored(s, a, n - 1), a[n - 1] - s.Window();
    var expired := ExpiredFirst(before, |before|, start);
    PruneSplits(before, |before|, start, p);
    CountIfConcat(Evicted(s, a, n - 1), expired, |expired|, p);
  }

  /**
   * Nothing is lost or invented, whatever the clock does: stored and evicted times together
   * are the admitted ones, counted through any predicate (`t => t == x` gives multiplicities).
   */
  lemma {:induction false} Conservation(s: Settings, a: seq<real>, n: nat, p: real -> bool)
    requires n <= |a|
    ensures CountIf(Stored(s, a, n), p) + CountIf(Evicted(s, a, n), p) == CountIf(Log(s, a, n), p)
  {
    if n > 0 {
      Conservation(s, a, n - 1, p);
      EvictedGrows(s, a, n, p);
      CountIfSnoc(Kept(s, Stored(s, a, n - 1), a[n - 1]), a[n - 1], p);
      CountIfSnoc(Log(s, a, n - 1), a[n - 1], p);
    }
  }

  lemma {:induction false} PruneLengthIsCount(ts: seq<real>, n: nat, start: real)
    requires n <= |ts|
    ensures |PruneFirst(ts, n, start)| == CountFirst(ts, n, t => t > start)
  {
    if n > 0 {
      PruneLengthIsCount(ts, n - 1, start);
    }
  }

  lemma {:induction false} CountZeroIffNone(ts: seq<real>, n: nat, p: real -> bool)
    requires n <= |ts|
    ensures CountFirst(ts, n, p) == 0 <==> forall i :: 0 <= i < n ==> !p(ts[i])
  {
    if n > 0 {
      CountZeroIffNone(ts, n - 1, p);
    }
  }

  /** Under any clock, what the call counts is the window of the full log less the evicted times back inside it. */
  lemma {:induction false} KeptIsLogLessRevived(s: Settings, a: seq<real>, i: nat)
    requires i < |a|
    ensures |Kept(s, Stored(s, a, i), a[i])| + CountIf(Evicted(s, a, i), t => t > a[i] - s.Window())
         == |Prune(Log(s, a, i), a[i] - s.Window())|
  {
    var start, stored, log := a[i] - s.Window(), Stored(s, a, i), Log(s, a, i);
    var p := t => t > start;
    Conservation(s, a, i, p);
    PruneLengthIsCount(stored, |stored|, start);
    PruneLengthIsCount(log, |log|, start);
  }

  /** Under any clock a rejection is right: the full log has at least the limit inside the window. */
  lemma {:induction false} RejectionsAreJustified(s: Settings, a: seq<real>, i: nat)
    requires i < |a| && !AdmittedAt(s, a, i)
    ensures |Prune(Log(s, a, i), a[i] - s.Window())| >= s.maxRequests
  {
    KeptIsLogLessRevived(s, a, i);
  }

  /** Under any clock, a call counts what the full log counts exactly when no evicted time is back in the window. */
  lemma PruningExactIffNothingRevived(s: Settings, a: seq<real>, i: nat)
    requires i < |a|
    ensures |Kept(s, Stored(s, a, i), a[i])| == |Prune(Log(s, a, i), a[i] - s.Window())|
       <==> forall j :: 0 <= j < |Evicted(s, a, i)| ==> Evicted(s, a, i)[j] <= a[i] - s.Window()
  {
    KeptIsLogLessRevived(s, a, i);
    CountZeroIffNone(Evicted(s, a, i), |Evicted(s, a, i)|, t => t > a[i] - s.Window());
  }

  /** The retry computation indexes an empty list exactly when the limit is not positive. */
  lemma FaultIffNoBudget(s: Settings, a: seq<real>, i: nat)
    requires i < |a|
    ensures Answer(s, a, i).IndexFault? <==> s.maxRequests <= 0
  {
    LengthBound(s, a, i);
    PruneShortens(Stored(s, a, i), |Stored(s, a, i)|, a[i] - s.Window());
  }

  // ---- Under a non-decreasing clock: pruning never changes a decision ----

  lemma {:induction false} LogSorted(s: Settings, a: seq<real>, n: nat, top: real)
    requires NonDecreasing(a) && n <= |a| && (n > 0 ==> a[n - 1] <= top)
    ensures SortedUpTo(Log(s, a, n), top)
  {
    if n > 0 {
      LogSorted(s, a, n - 1, a[n - 1]);
      SortedSnoc(Log(s, a, n - 1), a[n - 1], top);
    }
  }

  lemma InvisibleStep(before: seq<real>, log: seq<real>, now: real, cut: real, start: real)
    requires Prune(before, start) == Prune(log, start) && cut <= start
    ensures Prune(Prune(before, cut), start) == Prune(log, start)
    ensures Prune(Prune(before, cut) + [now], start) == Prune(log + [now], start)
  {
    PruneTwice(before, |before|, cut, start);
    PruneSnoc(Prune(before, cut), now, start);
    PruneSnoc(log, now, start);
  }

  /** Seen through any later window, the pruned list and the full log look the same. */
  lemma {:induction false} PruningIsInvisible(s: Settings, a: seq<real>, n: nat, start: real)
    requires NonDecreasing(a) && n <= |a| && (n > 0 ==> start >= a[n - 1] - s.Window())
    ensures Prune(Stored(s, a, n), start) == Prune(Log(s, a, n), start)
  {
    if n > 0 {
      PruningIsInvisible(s, a, n - 1, start);
      InvisibleStep(Stored(s, a, n - 1), Log(s, a, n - 1), a[n - 1], a[n - 1] - s.Window(), start);
    }
  }

  /** A request is admitted exactly when fewer than the limit of ALL admissions so far are still in the window. */
  lemma {:induction false} AdmittedIffRoomInFullLog(s: Settings, a: seq<real>, i: nat)
    requires NonDecreasing(a) && i < |a|
    ensures AdmittedAt(s, a, i) <==> |Prune(Log(s, a, i), a[i] - s.Window())| < s.maxRequests
    ensures Answer(s, a, i).Admitted? <==> AdmittedAt(s, a, i)
  {
    PruningIsInvisible(s, a, i, a[i] - s.Window());
  }

  /** After every request the stored list is the full log cut to the current window. */
  lemma {:induction false} StoredIsWindowOfLog(s: Settings, a: seq<real>, n: nat)
    requires NonDecreasing(a) && 0 < n <= |a| && s.windowSeconds > 0
    ensures Stored(s, a, n) == Prune(Log(s, a, n), a[n - 1] - s.Window())
  {
    PruningIsInvisible(s, a, n - 1, a[n - 1] - s.Window());
    NextIsWindowOfLog(s, Stored(s, a, n - 1), Log(s, a, n - 1), a[n - 1]);
  }

  lemma NextIsWindowOfLog(s: Settings, timestamps: seq<real>, log: seq<real>, now: real)
    requires Prune(timestamps, now - s.Window()) == Prune(log, now - s.Window()) && s.windowSeconds > 0
    ensures NextList(s, timestamps, now)
         == Prune(if Admits(s, timestamps, now) then log + [now] else log, now - s.Window())
  {
    PruneSnoc(log, now, now - s.Window());
  }

  /** ... and it is sorted, whatever the window. */
  lemma {:induction false} StoredIsSorted(s: Settings, a: seq<real>, n: nat, top: real)
    requires NonDecreasing(a) && n <= |a| && (n > 0 ==> a[n - 1] <= top)
    ensures SortedUpTo(Stored(s, a, n), top)
  {
    if n > 0 {
      StoredIsSorted(s, a, n - 1, a[n - 1]);
      var before, now := Stored(s, a, n - 1), a[n - 1];
      PruneSorted(before, |before|, now - s.Window(), now);
      SortedSnoc(Kept(s, before, now), now, top);
    }
  }

  // ---- At most the limit in every window ----

  /** At none of the first `n` arrivals has the clock stepped back far enough to revive an evicted time. */
  ghost predicate NothingRevived(s: Settings, a: seq<real>, n: nat)
    requires n <= |a|
  {
    forall i, j :: 0 <= i < n && 0 <= j < |Evicted(s, a, i)| ==> Evicted(s, a, i)[j] <= a[i] - s.Window()
  }

  lemma NonDecreasingRevivesNothing(s: Settings, a: seq<real>, n: nat)
    requires NonDecreasing(a) && n <= |a|
    ensures NothingRevived(s, a, n)
  {
    forall i | 0 <= i < n
      ensures forall j :: 0 <= j < |Evicted(s, a, i)| ==> Evicted(s, a, i)[j] <= a[i] - s.Window()
    {
      PruningIsInvisible(s, a, i, a[i] - s.Window());
      PruningExactIffNothingRevived(s, a, i);
    }
  }

  /** In any set of instants that fits strictly inside one window length, at most the limit is admitted. */
  lemma {:induction false} SpanBound(s: Settings, a: seq<real>, n: nat, inSpan: real -> bool)
    requires n <= |a| && NothingRevived(s, a, n)
    requires forall x, y :: inSpan(x) && inSpan(y) ==> x - y < s.Window()
    ensures CountIf(Log(s, a, n), inSpan) <= Bound(s)
  {
    if n > 0 {
      var log, now := Log(s, a, n - 1), a[n - 1];
      SpanBound(s, a, n - 1, inSpan);
      CountIfSnoc(log, now, inSpan);
      if inSpan(now) {
        PruningExactIffNothingRevived(s, a, n - 1);
        PruneDominates(log, |log|, inSpan, now - s.Window());
      }
    }
  }

  function After(from: real, window: real): real -> bool {
    t => from < t <= from + window
  }

  function NotBefore(from: real, window: real): real -> bool {
    t => from <= t < from + window
  }

  /** Both half-open windows of the advertised length, at every real offset. */
  lemma WindowBound(s: Settings, a: seq<real>, n: nat, from: real)
    requires n <= |a| && NothingRevived(s, a, n)
    ensures CountIf(Log(s, a, n), After(from, s.Window())) <= Bound(s)
    ensures CountIf(Log(s, a, n), NotBefore(from, s.Window())) <= Bound(s)
  {
    SpanBound(s, a, n, After(from, s.Window()));
    SpanBound(s, a, n, NotBefore(from, s.Window()));
  }

  /** A clock that jumps forward and back exceeds the limit: three admissions in (99, 109] with limit 2. */
  lemma ClockStepBackBreaksWindow()
    ensures var s, a := Settings(2, 10, DEFAULT_EXCLUDED), [100.0, 101.0, 200.0, 102.0];
            CountIf(Log(s, a, 4), After(99.0, s.Window())) == 3
  {
    var s, a := Settings(2, 10, DEFAULT_EXCLUDED), [100.0, 101.0, 200.0, 102.0];
    var one, two, p := [100.0], [100.0, 101.0], After(99.0, s.Window());
    assert Stored(s, a, 1) == one;
    assert Prune(one, 91.0) == one;
    assert Stored(s, a, 2) == two;
    assert Prune(one, 190.0) == [] && Prune(two, 190.0) == [];
    assert Stored(s, a, 3) == [200.0];
    assert Prune([200.0], 92.0) == [200.0];
    assert Log(s, a, 2) == two && Log(s, a, 3) == two + [200.0] && Log(s, a, 4) == two + [200.0] + [102.0];
    CountIfSnoc([], 100.0, p);
    CountIfSnoc(one, 101.0, p);
    CountIfSnoc(two, 200.0, p);
    CountIfSnoc(two + [200.0], 102.0, p);
  }

  // ---- retry_after: request `k` was rejected ----

  ghost predicate RejectedAt(s: Settings, a: seq<real>, k: nat) {
    k < |a| && Answer(s, a, k).Rejected?
  }

  /** The instant at which the oldest admission held after `n` arrivals leaves the window. */
  ghost function Release(s: Settings, a: seq<real>, n: nat): real
    requires n <= |a| && Stored(s, a, n) != []
  {
    Stored(s, a, n)[0] + s.Window()
  }

  /** After a rejection the list is full and sorted, and the release is ahead but within one window. */
  lemma {:induction false} RejectedState(s: Settings, a: seq<real>, k: nat)
    requires NonDecreasing(a) && RejectedAt(s, a, k)
    ensures |Stored(s, a, k + 1)| == s.maxRequests > 0
    ensures SortedUpTo(Stored(s, a, k + 1), a[k])
    ensures a[k] < Release(s, a, k + 1) <= a[k] + s.Window()
  {
    LengthBound(s, a, k + 1);
    StoredIsSorted(s, a, k + 1, a[k]);
    PruneStaysAbove(Stored(s, a, k), |Stored(s, a, k)|, a[k] - s.Window());
  }

  /** The number sent to the client is the wait rounded down to whole seconds, between 0 and the window. */
  lemma {:induction false} RetryAfterIsFloorOfWait(s: Settings, a: seq<real>, k: nat)
    requires NonDecreasing(a) && RejectedAt(s, a, k)
    ensures Stored(s, a, k + 1) != []
    ensures var r := Answer(s, a, k).retryAfter;
            && 0 <= r <= s.windowSeconds
            && r as real <= Release(s, a, k + 1) - a[k] < r as real + 1.0
  {
    RejectedState(s, a, k);
  }

  /** After a rejection the next request is admitted exactly when it comes at or after the release. */
  lemma NextAdmittedIffReleased(s: Settings, a: seq<real>, k: nat)
    requires NonDecreasing(a) && RejectedAt(s, a, k) && k + 1 < |a|
    ensures Stored(s, a, k + 1) != []
    ensures AdmittedAt(s, a, k + 1) <==> a[k + 1] >= Release(s, a, k + 1)
    ensures a[k + 1] < Release(s, a, k + 1) ==>
              RejectedAt(s, a, k + 1) && Stored(s, a, k + 2) == Stored(s, a, k + 1)
  {
    RejectedState(s, a, k);
    var held, start := Stored(s, a, k + 1), a[k + 1] - s.Window();
    if a[k + 1] < Release(s, a, k + 1) {
      PruneKeepsAll(held, |held|, start);
    } else {
      PruneShortens(held, |held|, start);
    }
  }

  /** Waiting exactly as long as advertised is enough only when the remaining wait is a whole number of seconds. */
  lemma AdvertisedWaitSufficesIffWhole(s: Settings, a: seq<real>, k: nat)
    requires NonDecreasing(a) && RejectedAt(s, a, k) && k + 1 < |a|
    requires a[k + 1] == a[k] + Answer(s, a, k).retryAfter as real
    ensures Stored(s, a, k + 1) != []
    ensures var wait := Release(s, a, k + 1) - a[k];
            AdmittedAt(s, a, k + 1) <==> wait == wait.Floor as real
  {
    RetryAfterIsFloorOfWait(s, a, k);
    NextAdmittedIffReleased(s, a, k);
  }

  /** With less than a second to wait the client is told 0, and is rejected again if it believes that. */
  lemma RetryAtOnceIsRejected()
    ensures var s, a := Settings(1, 10, DEFAULT_EXCLUDED), [0.0, 9.5, 9.5];
            Answer(s, a, 1) == Rejected(0) && RejectedAt(s, a, 2)
  {
    var s, a := Settings(1, 10, DEFAULT_EXCLUDED), [0.0, 9.5, 9.5];
    assert Stored(s, a, 1) == [0.0];
    assert Prune([0.0], -0.5) == [0.0];
    assert Stored(s, a, 2) == [0.0];
  }

  /** Rejected traffic changes nothing: however much of it follows, the list and the release stay as they were. */
  lemma {:induction false} RejectedTrafficNeverLengthensWait(s: Settings, a: seq<real>, k: nat, n: nat)
    requires NonDecreasing(a) && k < n <= |a|
    requires forall i :: k <= i < n ==> RejectedAt(s, a, i)
    ensures Stored(s, a, n) == Stored(s, a, k + 1) != []
  {
    if n == k + 1 {
      RejectedState(s, a, k);
    } else {
      RejectedTrafficNeverLengthensWait(s, a, k, n - 1);
      assert RejectedAt(s, a, n - 2) && RejectedAt(s, a, n - 1);
      NextAdmittedIffReleased(s, a, n - 2);
    }
  }

  /** Every request before now + r is rejected as well, however many there are. */
  lemma {:induction false} RetryTooEarlyIsRejected(s: Settings, a: seq<real>, k: nat, n: nat)
    requires NonDecreasing(a) && RejectedAt(s, a, k) && k < n <= |a|
    requires n > k + 1 ==> a[n - 1] < a[k] + Answer(s, a, k).retryAfter as real
    ensures forall i :: k <= i < n ==> RejectedAt(s, a, i)
  {
    if n > k + 1 {
      RetryTooEarlyIsRejected(s, a, k, n - 1);
      RejectedTrafficNeverLengthensWait(s, a, k, n - 1);
      RetryAfterIsFloorOfWait(s, a, k);
      NextAdmittedIffReleased(s, a, n - 2);
    }
  }

  /** One second past the advertised wait always suffices, unless something was admitted in between. */
  lemma RetryInTimeIsAdmitted(s: Settings, a: seq<real>, k: nat, n: nat)
    requires NonDecreasing(a) && k < n < |a|
    requires forall i :: k <= i < n ==> RejectedAt(s, a, i)
    requires RejectedAt(s, a, k) && a[n] >= a[k] + Answer(s, a, k).retryAfter as real + 1.0
    ensures AdmittedAt(s, a, n)
  {
    RejectedTrafficNeverLengthensWait(s, a, k, n);
    RetryAfterIsFloorOfWait(s, a, k);
    NextAdmittedIffReleased(s, a, n - 1);
  }
}
