/** The in-memory sliding-window rate limiter of shared/rate_limiter.py.

    `acquire` runs under a per-key lock and gives the lock up only while it sleeps, so what
    interleaves is whole passes of its loop. `Backend.Attempt` is one such pass; a run is a
    sequence of passes by any number of callers on any number of keys, under one monotone clock.

    The limiter is compared with an ideal one that keeps every grant for ever and counts the
    grants of the trailing window. */
module MemoryLimiter {
  import opened Wrappers

  /** What one pass of the loop ends with. `IndexError` is reading the head of an empty deque. */
  datatype Outcome = Granted | TimedOut | Sleep(wait: real) | IndexError

  datatype Config = Config(maxRequests: int, window: real)

  /** One pass: the key, when the call began, its timeout, and the clock reading of this pass. */
  datatype Pass = Pass(key: string, start: real, timeout: Option<real>, now: real)

  // ---------------------------------------------------------------- one pass

  /** The deque after popping its expired head entries. */
  function Pruned(log: seq<real>, bound: real): seq<real> {
    if log != [] && log[0] <= bound then Pruned(log[1..], bound) else log
  }

  predicate Expired(p: Pass) {
    p.timeout.Some? && p.now - p.start >= p.timeout.value
  }

  function OutcomeOf(log: seq<real>, c: Config, p: Pass): Outcome {
    var live := Pruned(log, p.now - c.window);
    if |live| < c.maxRequests then Granted
    else if Expired(p) then TimedOut
    else if live == [] then IndexError
    else Sleep(live[0] + c.window - p.now)
  }

  function LogAfter(log: seq<real>, c: Config, p: Pass): seq<real> {
    var live := Pruned(log, p.now - c.window);
    if |live| < c.maxRequests then live + [p.now] else live
  }

  function Entry(m: map<string, seq<real>>, key: string): seq<real> {
    if key in m then m[key] else []
  }

  class Backend {
    var requests: map<string, seq<real>>

    constructor ()
      ensures requests == map[]
    {
      requests := map[];
    }

    /** One pass of the acquire loop, from taking the lock to returning, raising or sleeping. */
    method Attempt(c: Config, p: Pass) returns (o: Outcome)
      modifies this
      ensures o == OutcomeOf(Entry(old(requests), p.key), c, p)
      ensures requests == old(requests)[p.key := LogAfter(Entry(old(requests), p.key), c, p)]
    {
      var deque := Entry(requests, p.key);
      while deque != [] && deque[0] <= p.now - c.window
        invariant Pruned(deque, p.now - c.window)
               == Pruned(Entry(old(requests), p.key), p.now - c.window)
        decreases |deque|
      {
        deque := deque[1..];
      }
      requests := requests[p.key := deque];
      if |deque| < c.maxRequests {
        requests := requests[p.key := deque + [p.now]];
        return Granted;
      }
      if p.timeout.Some? {
        var elapsed := p.now - p.start;
        if elapsed >= p.timeout.value {
          return TimedOut;
        }
      }
      if deque == [] {
        return IndexError;
      }
      var oldest := deque[0];
      return Sleep(oldest + c.window - p.now);
    }
  }

  // ---------------------------------------------------------------- runs

  /** The deques, and for each key every grant ever made. */
  datatype State = State(logs: map<string, seq<real>>, grants: map<string, seq<real>>)

  function Step(cfg: string -> Config, s: State, p: Pass): State {
    var log := Entry(s.logs, p.key);
    var c := cfg(p.key);
    State(
      s.logs[p.key := LogAfter(log, c, p)],
      if OutcomeOf(log, c, p) == Granted
      then s.grants[p.key := Entry(s.grants, p.key) + [p.now]] else s.grants)
  }

  function Run(cfg: string -> Config, run: seq<Pass>): State {
    if run == [] then State(map[], map[])
    else Step(cfg, Run(cfg, run[..|run| - 1]), run[|run| - 1])
  }

  predicate Monotone(run: seq<Pass>) {
    forall i, j :: 0 <= i < j < |run| ==> run[i].now <= run[j].now
  }

  function GrantsOf(cfg: string -> Config, run: seq<Pass>, key: string): seq<real> {
    Entry(Run(cfg, run).grants, key)
  }

  /** How many of the grants fall in the window (lo, hi]. */
  function CountIn(g: seq<real>, lo: real, hi: real): nat {
    if g == [] then 0
    else CountIn(g[..|g| - 1], lo, hi) + (if lo < g[|g| - 1] <= hi then 1 else 0)
  }

  // ---------------------------------------------------------------- sequences of grants

  predicate Sorted(g: seq<real>) {
    forall i, j :: 0 <= i < j < |g| ==> g[i] <= g[j]
  }

  /** Two grants with maxRequests - 1 or more others between them are a whole window apart. */
  predicate Spaced(g: seq<real>, c: Config) {
    forall i, j :: 0 <= i < j < |g| && i + c.maxRequests <= j ==> g[i] + c.window <= g[j]
  }

  lemma {:induction false} CountOfSuffix(g: seq<real>, lo: real, hi: real, n: nat)
    requires n <= |g|
    requires forall i :: 0 <= i < n ==> !(lo < g[i] <= hi)
    ensures CountIn(g, lo, hi) <= |g| - n
    ensures (forall i :: n <= i < |g| ==> lo < g[i] <= hi) ==> CountIn(g, lo, hi) == |g| - n
  {
    if n < |g| {
      CountOfSuffix(g[..|g| - 1], lo, hi, n);
    } else if g != [] {
      CountOfSuffix(g[..|g| - 1], lo, hi, n - 1);
    }
  }

  lemma {:induction false} WindowBound(g: seq<real>, c: Config, t: real)
    requires c.maxRequests >= 1 && Sorted(g) && Spaced(g, c)
    ensures CountIn(g, t - c.window, t) <= c.maxRequests
  {
    if g != [] {
      var last := g[|g| - 1];
      if t - c.window < last <= t {
        var n := if |g| <= c.maxRequests then 0 else |g| - c.maxRequests;
        forall i | 0 <= i < n ensures g[i] <= t - c.window {
          assert g[i] + c.window <= last;
        }
        CountOfSuffix(g, t - c.window, t, n);
      } else {
        WindowBound(g[..|g| - 1], c, t);
      }
    }
  }

  // ---------------------------------------------------------------- the invariant

  /** What a key's deque is, in terms of the grants made on that key up to time `clock`: the
      grants of the trailing window, and possibly some older ones not yet popped. */
  predicate Inv(log: seq<real>, g: seq<real>, c: Config, clock: real) {
    && Sorted(g)
    && (forall i :: 0 <= i < |g| ==> g[i] <= clock)
    && |log| <= |g|
    && log == g[|g| - |log|..]
    && (forall i :: 0 <= i < |g| - |log| ==> g[i] <= clock - c.window)
    && (if c.maxRequests < 1 then g == [] else |log| <= c.maxRequests && Spaced(g, c))
  }

  lemma {:induction false} PrunedIsSuffix(log: seq<real>, bound: real)
    requires Sorted(log)
    ensures var live := Pruned(log, bound);
      && |live| <= |log| && live == log[|log| - |live|..]
      && (forall i :: 0 <= i < |log| - |live| ==> log[i] <= bound)
      && (forall i :: |log| - |live| <= i < |log| ==> bound < log[i])
  {
    if log != [] && log[0] <= bound {
      PrunedIsSuffix(log[1..], bound);
    }
  }

  /** After pruning, the deque is exactly the grants of the trailing window. */
  lemma PrunedIsTrailingWindow(log: seq<real>, g: seq<real>, c: Config, clock: real, now: real)
    requires Inv(log, g, c, clock) && clock <= now
    ensures var live := Pruned(log, now - c.window);
      && |live| <= |g| && live == g[|g| - |live|..]
      && (forall i :: 0 <= i < |g| - |live| ==> g[i] <= now - c.window)
      && (forall i :: |g| - |live| <= i < |g| ==> now - c.window < g[i])
      && |live| == CountIn(g, now - c.window, now)
  {
    hide CountIn;
    hide Pruned;
    var live := Pruned(log, now - c.window);
    var d := |g| - |log|;
    assert forall i :: 0 <= i < |log| ==> log[i] == g[i + d];
    PrunedIsSuffix(log, now - c.window);
    var n := |g| - |live|;
    forall i | 0 <= i < n ensures g[i] <= now - c.window {
      if i >= d { assert g[i] == log[i - d]; }
    }
    forall i | n <= i < |g| ensures now - c.window < g[i] {
      assert g[i] == log[i - d];
    }
    CountOfSuffix(g, now - c.window, now, n);
  }

  /** A grant at `now`, made while fewer than maxRequests entries are live, keeps the spacing. */
  lemma GrantKeepsInv(live: seq<real>, g: seq<real>, c: Config, now: real)
    requires Inv(live, g, c, now) && |live| < c.maxRequests
    ensures Inv(live + [now], g + [now], c, now)
  {
    var g' := g + [now];
    assert live + [now] == g'[|g'| - |live| - 1..];
    forall i, j | 0 <= i < j < |g'| && i + c.maxRequests <= j ensures g'[i] + c.window <= g'[j] {
      if j == |g| {
        assert g[i] <= now - c.window;
      }
    }
  }

  lemma PruneKeepsInv(log: seq<real>, g: seq<real>, c: Config, clock: real, now: real)
    requires Inv(log, g, c, clock) && clock <= now
    ensures Inv(Pruned(log, now - c.window), g, c, now)
  {
    PrunedIsTrailingWindow(log, g, c, clock, now);
    PrunedIsSuffix(log, now - c.window);
  }

  lemma StepKeepsInv(log: seq<real>, g: seq<real>, c: Config, clock: real, p: Pass)
    requires Inv(log, g, c, clock) && clock <= p.now
    ensures OutcomeOf(log, c, p) == Granted ==> Inv(LogAfter(log, c, p), g + [p.now], c, p.now)
    ensures OutcomeOf(log, c, p) != Granted ==> Inv(LogAfter(log, c, p), g, c, p.now)
  {
    hide Inv;
    hide Pruned;
    PruneKeepsInv(log, g, c, clock, p.now);
    var live := Pruned(log, p.now - c.window);
    if |live| < c.maxRequests {
      GrantKeepsInv(live, g, c, p.now);
    }
  }

  /** `clock` is not before the last pass of the run. */
  predicate Follows(run: seq<Pass>, clock: real) {
    run != [] ==> run[|run| - 1].now <= clock
  }

  predicate KeyInv(cfg: string -> Config, s: State, key: string, clock: real) {
    Inv(Entry(s.logs, key), Entry(s.grants, key), cfg(key), clock)
  }

  lemma StateStepKeepsInv(cfg: string -> Config, s: State, p: Pass, key: string)
    requires KeyInv(cfg, s, key, p.now)
    ensures KeyInv(cfg, Step(cfg, s, p), key, p.now)
  {
    var log, g := Entry(s.logs, key), Entry(s.grants, key);
    if p.key == key {
      StepKeepsInv(log, g, cfg(key), p.now, p);
    } else {
      assert Entry(Step(cfg, s, p).logs, key) == log;
      assert Entry(Step(cfg, s, p).grants, key) == g;
    }
  }

  lemma InvAges(cfg: string -> Config, s: State, key: string, clock: real, later: real)
    requires KeyInv(cfg, s, key, clock) && clock <= later
    ensures KeyInv(cfg, s, key, later)
  {
  }

  lemma {:induction false} RunInv(cfg: string -> Config, run: seq<Pass>, key: string, clock: real)
    requires Monotone(run) && Follows(run, clock)
    ensures KeyInv(cfg, Run(cfg, run), key, clock)
  {
    if run != [] {
      var front, p := run[..|run| - 1], run[|run| - 1];
      RunInv(cfg, front, key, p.now);
      StateStepKeepsInv(cfg, Run(cfg, front), p, key);
      InvAges(cfg, Run(cfg, run), key, p.now, clock);
    }
  }

  // ---------------------------------------------------------------- main results

  /** Safety of every run: on every key, every window (t - W, t] holds at most maxRequests
      grants. A key configured with maxRequests < 1 never grants at all. */
  lemma EveryWindowWithinLimit(cfg: string -> Config, run: seq<Pass>, key: string, t: real)
    requires Monotone(run)
    ensures CountIn(GrantsOf(cfg, run, key), t - cfg(key).window, t)
         <= (if cfg(key).maxRequests < 1 then 0 else cfg(key).maxRequests)
  {
    RunInv(cfg, run, key, if run == [] then 0.0 else run[|run| - 1].now);
    if cfg(key).maxRequests >= 1 {
      WindowBound(GrantsOf(cfg, run, key), cfg(key), t);
    }
  }

  /** What an ideal limiter, which remembers every grant ever made, would answer. */
  function IdealOutcome(g: seq<real>, c: Config, p: Pass): Outcome {
    var n := CountIn(g, p.now - c.window, p.now);
    if n < c.maxRequests then Granted
    else if p.timeout.Some? && p.now >= p.start + p.timeout.value then TimedOut
    else if n == 0 || |g| < n then IndexError
    else Sleep(g[|g| - n] + c.window - p.now)
  }

  function NextOutcome(cfg: string -> Config, run: seq<Pass>, p: Pass): Outcome {
    OutcomeOf(Entry(Run(cfg, run).logs, p.key), cfg(p.key), p)
  }

  lemma LiveFacts(log: seq<real>, g: seq<real>, c: Config, now: real)
    requires Inv(log, g, c, now)
    ensures var live := Pruned(log, now - c.window);
      && |live| == CountIn(g, now - c.window, now) <= |g|
      && (live != [] ==> live[0] == g[|g| - |live|] > now - c.window)
      && (if c.maxRequests < 1 then live == [] else |live| <= c.maxRequests)
  {
    PruneKeepsInv(log, g, c, now, now);
    PrunedIsTrailingWindow(log, g, c, now, now);
  }

  /** Refinement: after every run, the next pass answers as the ideal limiter does. A pass is held
      back only when exactly maxRequests grants lie in its trailing window; the sleep is then
      positive. The loop reads an empty deque exactly when the limit is below one. */
  lemma RefinesIdealLimiter(cfg: string -> Config, run: seq<Pass>, p: Pass)
    requires Monotone(run) && Follows(run, p.now)
    ensures var g, c, o := GrantsOf(cfg, run, p.key), cfg(p.key), NextOutcome(cfg, run, p);
      && o == IdealOutcome(g, c, p)
      && (o != Granted && c.maxRequests >= 1 ==> CountIn(g, p.now - c.window, p.now) == c.maxRequests <= |g|)
      && (o == IndexError <==> c.maxRequests < 1 && (p.timeout.Some? ==> p.now - p.start < p.timeout.value))
      && (o.Sleep? ==> o.wait > 0.0)
  {
    hide Inv;
    hide Pruned;
    hide Run;
    RunInv(cfg, run, p.key, p.now);
    LiveFacts(Entry(Run(cfg, run).logs, p.key), GrantsOf(cfg, run, p.key), cfg(p.key), p.now);
  }

  /** What a caller is told, in numbers: it is granted iff fewer than maxRequests grants lie in its
      trailing window; it times out iff that many do and its timeout has run out, so never before
      its deadline; and it sleeps only before its deadline, until the oldest of the maxRequests
      latest grants is a window old. */
  lemma OutcomeIff(cfg: string -> Config, run: seq<Pass>, p: Pass)
    requires Monotone(run) && Follows(run, p.now)
    ensures var g, c, o := GrantsOf(cfg, run, p.key), cfg(p.key), NextOutcome(cfg, run, p);
      var full := CountIn(g, p.now - c.window, p.now) >= c.maxRequests;
      && (o == Granted <==> !full)
      && (o == TimedOut <==> full && p.timeout.Some? && p.now - p.start >= p.timeout.value)
      && (o.Sleep? <==> full && c.maxRequests >= 1 && (p.timeout.Some? ==> p.now - p.start < p.timeout.value))
      && (o.Sleep? ==> c.maxRequests <= |g| && o.wait == g[|g| - c.maxRequests] + c.window - p.now)
  {
    hide CountIn;
    hide Run;
    RefinesIdealLimiter(cfg, run, p);
  }

  /** The computed sleep is exact. Suppose a pass sleeps for `wait` at time `now`, and the run goes
      on (other callers, other keys) without another grant on that key. Then a pass at any later
      time is granted if and only if the sleep has elapsed by then. */
  lemma SleepIsExact(cfg: string -> Config, run: seq<Pass>, p: Pass, later: seq<Pass>, q: Pass)
    requires run + [p] <= later && Monotone(later) && Follows(later, q.now)
    requires q.key == p.key
    requires NextOutcome(cfg, run, p).Sleep?
    requires GrantsOf(cfg, later, p.key) == GrantsOf(cfg, run, p.key)
    ensures NextOutcome(cfg, later, q) == Granted
       <==> q.now >= p.now + NextOutcome(cfg, run, p).wait
  {
    hide Run;
    hide Pruned;
    hide CountIn;
    assert later[|run|] == p && p.now <= q.now;
    assert forall i :: 0 <= i < |run| ==> run[i] == later[i];
    RefinesIdealLimiter(cfg, run, p);
    RefinesIdealLimiter(cfg, later, q);
    FullUntil(cfg, run, p, q.now);
  }

  lemma FullUntil(cfg: string -> Config, run: seq<Pass>, p: Pass, later: real)
    requires Monotone(run) && Follows(run, p.now) && p.now <= later
    requires NextOutcome(cfg, run, p).Sleep? && cfg(p.key).maxRequests >= 1
    ensures CountIn(GrantsOf(cfg, run, p.key), later - cfg(p.key).window, later) < cfg(p.key).maxRequests
       <==> later >= p.now + NextOutcome(cfg, run, p).wait
  {
    hide Run;
    hide Inv;
    hide CountIn;
    RefinesIdealLimiter(cfg, run, p);
    RunInv(cfg, run, p.key, p.now);
    StillWaiting(Entry(Run(cfg, run).logs, p.key), GrantsOf(cfg, run, p.key), cfg(p.key), p.now, later);
  }

  /** The trailing window, full at `now`, stays full until its oldest grant leaves it. */
  lemma StillWaiting(log: seq<real>, g: seq<real>, c: Config, now: real, later: real)
    requires Inv(log, g, c, now) && now <= later
    requires 1 <= c.maxRequests == CountIn(g, now - c.window, now) <= |g|
    ensures CountIn(g, later - c.window, later) < c.maxRequests
       <==> later >= g[|g| - c.maxRequests] + c.window
  {
    hide CountIn;
    hide Pruned;
    var n := |g| - c.maxRequests;
    PrunedIsTrailingWindow(log, g, c, now, now);
    CountOfSuffix(g, later - c.window, later, if g[n] <= later - c.window then n + 1 else n);
  }
}
