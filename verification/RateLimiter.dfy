/** The in-memory sliding-window rate limiter (src/api/rate_limiter.py). */
module RateLimiter {
  import opened Common

  /** The constructor's arguments after `exclude_paths` has been defaulted. */
  datatype Settings = Settings(maxRequests: int, windowSeconds: int, excludePaths: set<string>) {
    function Window(): real { windowSeconds as real }
  }

  /** `client` is None when the server has no peer address; `now` is the clock read by the call. */
  datatype Request = Request(path: string, client: Option<string>, now: real)

  /** Bypassed and Admitted forward the request; IndexFault is `[][0]` raised by the retry computation. */
  datatype Outcome = Bypassed | Admitted | Rejected(retryAfter: int) | IndexFault

  const DEFAULT_EXCLUDED := {"/health", "/docs", "/openapi.json", "/redoc"}

  /** `exclude_paths or {...}`: an empty set is falsy, so it selects the default too. */
  function EffectiveExcludes(paths: Option<set<string>>): set<string> {
    if paths.None? || paths.value == {} then DEFAULT_EXCLUDED else paths.value
  }

  function ClientKey(r: Request): string {
    r.client.GetOr("unknown")
  }

  /** Of the first `n` timestamps, those strictly after `start`, in order. */
  function PruneFirst(timestamps: seq<real>, n: nat, start: real): seq<real>
    requires n <= |timestamps|
  {
    if n == 0 then []
    else if timestamps[n - 1] > start then PruneFirst(timestamps, n - 1, start) + [timestamps[n - 1]]
    else PruneFirst(timestamps, n - 1, start)
  }

  /** The list comprehension of `dispatch`. */
  function Prune(timestamps: seq<real>, start: real): seq<real> {
    PruneFirst(timestamps, |timestamps|, start)
  }

  /** Python's int() on a float: truncation towards zero. */
  function Truncate(x: real): int {
    if x >= 0.0 then x.Floor else -((-x).Floor)
  }

  lemma TruncateRoundsTowardsZero(x: real)
    ensures x >= 0.0 ==> Truncate(x) as real <= x < Truncate(x) as real + 1.0
    ensures x <= 0.0 ==> Truncate(x) as real - 1.0 < x <= Truncate(x) as real
  {
  }

  /** The client's list as the call sees it, already pruned. */
  function Kept(s: Settings, timestamps: seq<real>, now: real): seq<real> {
    Prune(timestamps, now - s.Window())
  }

  predicate Admits(s: Settings, timestamps: seq<real>, now: real) {
    |Kept(s, timestamps, now)| < s.maxRequests
  }

  /** The list one call leaves behind. */
  function NextList(s: Settings, timestamps: seq<real>, now: real): seq<real> {
    if Admits(s, timestamps, now) then Kept(s, timestamps, now) + [now] else Kept(s, timestamps, now)
  }

  /** What the call is answered. */
  function Decide(s: Settings, timestamps: seq<real>, now: real): Outcome {
    var kept := Kept(s, timestamps, now);
    if Admits(s, timestamps, now) then Admitted
    else if kept == [] then IndexFault
    else Rejected(Truncate(kept[0] + s.Window() - now))
  }

  type Table = map<string, seq<real>>

  /** Reading a defaultdict(list). */
  function Lookup(t: Table, client: string): seq<real> {
    if client in t then t[client] else []
  }

  /** The outcome of one call and the table after it. */
  function Step(s: Settings, t: Table, r: Request): (Outcome, Table) {
    if r.path in s.excludePaths then (Bypassed, t)
    else
      var timestamps := Lookup(t, ClientKey(r));
      (Decide(s, timestamps, r.now), t[ClientKey(r) := NextList(s, timestamps, r.now)])
  }

  /** The table after the first `n` calls of a run, starting from the empty table. */
  function TableAfter(s: Settings, run: seq<Request>, n: nat): Table
    requires n <= |run|
  {
    if n == 0 then map[] else Step(s, TableAfter(s, run, n - 1), run[n - 1]).1
  }

  /** What the i-th request of a run was answered. */
  function OutcomeAt(s: Settings, run: seq<Request>, i: nat): Outcome
    requires i < |run|
  {
    Step(s, TableAfter(s, run, i), run[i]).0
  }

  lemma {:induction false} TableOfPrefix(s: Settings, run: seq<Request>, more: seq<Request>, n: nat)
    requires n <= |run|
    ensures TableAfter(s, run + more, n) == TableAfter(s, run, n)
  {
    if n > 0 {
      TableOfPrefix(s, run, more, n - 1);
    }
  }
}
