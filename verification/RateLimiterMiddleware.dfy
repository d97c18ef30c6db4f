/** The middleware object and its `dispatch` method. */
module RateLimiterMiddleware {
  import opened Common
  import opened RateLimiter
  import opened RateLimiterRuns
  import opened RateLimiterClients
  import opened RateLimiterAnswers

  class InMemoryRateLimiter {
    const settings: Settings
    var requests: Table
    ghost var history: seq<Request>  // every request dispatched so far

    ghost predicate Valid()
      reads this
    {
      requests == TableAfter(settings, history, |history|)
    }

    constructor (maxRequests: int := 100, windowSeconds: int := 60, excludePaths: Option<set<string>> := None)
      ensures Valid() && history == []
      ensures settings.maxRequests == maxRequests && settings.windowSeconds == windowSeconds
      ensures match excludePaths {
                case Some(paths) => paths != {} ==> settings.excludePaths == paths
                case None => true
              }
      ensures excludePaths == None || excludePaths == Some({}) ==>
                settings.excludePaths == {"/health", "/docs", "/openapi.json", "/redoc"}
    {
      settings := Settings(maxRequests, windowSeconds, EffectiveExcludes(excludePaths));
      requests := map[];
      history := [];
    }

    /** The window test, on the client's own admissions in `history` and never on the pruned list. */
    ghost predicate HasRoom(r: Request)
      reads this
    {
      CountIf(AdmittedTimes(settings, history, |history|, ClientKey(r)), t => t > r.now - settings.Window())
        < settings.maxRequests
    }

    /** The statements of `dispatch`: skip, prune, test, reject or record. */
    method Handle(r: Request) returns (o: Outcome)
      modifies this`requests
      ensures (o, requests) == Step(settings, old(requests), r)
    {
      if r.path in settings.excludePaths {
        return Bypassed;
      }
      var client := ClientKey(r);
      var windowStart := r.now - settings.Window();
      var timestamps := Lookup(requests, client);
      requests := requests[client := Prune(timestamps, windowStart)];
      if |requests[client]| >= settings.maxRequests {
        if |requests[client]| == 0 {
          return IndexFault;
        }
        return Rejected(Truncate(requests[client][0] + settings.Window() - r.now));
      }
      requests := requests[client := requests[client] + [r.now]];
      assert requests == old(requests)[client := NextList(settings, timestamps, r.now)];
      return Admitted;
    }

    /** `dispatch` in its history. */
    method Dispatch(r: Request) returns (o: Outcome)
      requires Valid()
      modifies this
      ensures Valid() && history == old(history) + [r]
      ensures o == OutcomeAt(settings, history, |history| - 1)
      // excluded paths and other clients' lists are untouched
      ensures o.Bypassed? <==> r.path in settings.excludePaths
      ensures o.Bypassed? ==> requests == old(requests)
      ensures forall c :: c != (match r.client case Some(address) => address case None => "unknown") ==>
                (c in requests <==> c in old(requests)) && (c in requests ==> requests[c] == old(requests)[c])
      // the client's own list takes the admitted request
      ensures o.Admitted? ==>
                var c := match r.client case Some(address) => address case None => "unknown";
                c in requests && requests[c] != [] && requests[c][|requests[c]| - 1] == r.now
      // the limit, measured against everything ever admitted
      ensures ClockNeverStepsBack(history) && !o.Bypassed? ==> (o.Admitted? <==> old(HasRoom(r)))
      ensures ClockNeverStepsBack(history) && !o.Bypassed? ==>
                (o.Admitted? <==> |Recent(settings, history, |history| - 1, r)| < settings.maxRequests)
      ensures o.IndexFault? <==> r.path !in settings.excludePaths && settings.maxRequests <= 0
      ensures |Lookup(requests, ClientKey(r))| <= Bound(settings)
    {
      ghost var before := history;
      TableOfPrefix(settings, before, [r], |before|);
      DispatchMeetsLimit(settings, before, r);
      StepTouchesOwnList(settings, requests, r);
      o := Handle(r);
      history := before + [r];
    }
  }

  /** The limiter of the application: every argument left to its default. */
  method CreateApplicationLimiter() returns (limiter: InMemoryRateLimiter)
    ensures fresh(limiter) && limiter.Valid() && limiter.history == []
    ensures limiter.settings == Settings(100, 60, {"/health", "/docs", "/openapi.json", "/redoc"})
  {
    limiter := new InMemoryRateLimiter();
  }

  /** Other addresses keep their lists, and the own list takes an admitted request. */
  lemma StepTouchesOwnList(s: Settings, t: Table, r: Request)
    ensures var c := match r.client case Some(address) => address case None => "unknown";
            var (o, after) := Step(s, t, r);
            && (forall d :: d != c ==> (d in after <==> d in t) && (d in after ==> after[d] == t[d]))
            && (o.Admitted? ==> c in after && after[c] != [] && after[c][|after[c]| - 1] == r.now)
  {
  }

  /** The clauses of `dispatch` that speak of the whole history, proved of the run it extends. */
  lemma DispatchMeetsLimit(s: Settings, before: seq<Request>, r: Request)
    ensures var run := before + [r];
            && |Lookup(TableAfter(s, run, |run|), ClientKey(r))| <= Bound(s)
            && (OutcomeAt(s, run, |before|).IndexFault? <==> r.path !in s.excludePaths && s.maxRequests <= 0)
            && (ClockNeverStepsBack(run) && r.path !in s.excludePaths ==>
                 (OutcomeAt(s, run, |before|).Admitted? <==>
                   CountIf(AdmittedTimes(s, before, |before|, ClientKey(r)), t => t > r.now - s.Window())
                     < s.maxRequests)
                 && (OutcomeAt(s, run, |before|).Admitted? <==> |Recent(s, run, |before|, r)| < s.maxRequests))
  {
    var run := before + [r];
    TableBounded(s, run, |run|, ClientKey(r));
    TableBounded(s, run, |before|, ClientKey(r));
    AdmittedTimesOfPrefix(s, before, [r], |before|, ClientKey(r));
    if ClockNeverStepsBack(run) && r.path !in s.excludePaths {
      AdmittedIffRoom(s, run, |before|);
      RecentAreCounted(s, run, |before|, r);
    }
  }

  lemma {:induction false} AdmittedTimesOfPrefix(
    s: Settings, run: seq<Request>, more: seq<Request>, n: nat, client: string)
    requires n <= |run|
    ensures AdmittedTimes(s, run + more, n, client) == AdmittedTimes(s, run, n, client)
  {
    if n > 0 {
      AdmittedTimesOfPrefix(s, run, more, n - 1, client);
      TableOfPrefix(s, run, more, n - 1);
    }
  }
}
