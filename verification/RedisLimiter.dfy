/** The Redis sliding-window rate limiter of shared/rate_limiter.py.

    Each of N workers loops over three separate steps: it reads the shared clock, it prunes and
    counts the sorted set in one atomic pipeline, and, if the count was below the limit, it adds
    its own entry. Steps of different workers interleave arbitrarily, so several workers can pass
    the check before any of them adds, and a worker can check with a clock reading that other
    workers have already pruned past. Each grant also renews the key's EXPIRE, in the same step as
    its ZADD; when nothing was granted for that long, the whole set disappears. */
module RedisLimiter {

  /** A sorted-set member: the request id contains the clock reading, which is also the score. */
  datatype Member = Member(score: real, id: int)

  datatype Config = Config(maxRequests: int, window: real)

  // ---------------------------------------------------------------- the sorted set

  /** How long after a grant the key is kept: int(window) + 60. */
  function Retention(c: Config): real {
    c.window.Floor as real + 60.0
  }

  function Pruned(zset: set<Member>, windowStart: real): set<Member> {
    set m | m in zset && !(0.0 <= m.score <= windowStart)
  }

  class SortedSet {
    var zset: set<Member>

    /** The pipeline: ZREMRANGEBYSCORE from 0 to the window start, then ZCARD. */
    method PruneAndCount(now: real, window: real) returns (count: nat)
      modifies this
      ensures zset == Pruned(old(zset), now - window) && count == |zset|
    {
      var windowStart := now - window;
      var doomed := set m | m in zset && 0.0 <= m.score <= windowStart;
      zset := zset - doomed;
      count := |zset|;
    }

    /** ZADD: reports whether the member was new. */
    method Add(now: real, id: int) returns (added: bool)
      modifies this
      ensures added <==> Member(now, id) !in old(zset)
      ensures zset == old(zset) + {Member(now, id)}
    {
      added := Member(now, id) !in zset;
      zset := zset + {Member(now, id)};
    }
  }

  // ---------------------------------------------------------------- the interleaved workers

  /** Where a worker is in its loop: before reading the clock, between reading it and the
      pipeline, or between a passed check and the ZADD. */
  datatype Phase = Idle | HasRead(now: real) | Passed(now: real)

  /** `expires` is when the key disappears. `grants` is every entry ever added; `latest` is the latest
      time anything was pruned up to. Both are history only. */
  datatype State = State(clock: real, zset: set<Member>, expires: real, phases: seq<Phase>, grants: seq<Member>, latest: real)

  /** `Expire` is Redis deleting the expired key; `Abandon` is a crash or a raised timeout at any
      point of the loop. */
  datatype Action = Tick(to: real) | Read(w: nat) | Check(w: nat) | Add(w: nat, id: int) | Expire | Abandon(w: nat)

  function Init(c: Config, workers: nat, t0: real): State {
    State(t0, {}, t0 + Retention(c), seq(workers, _ => Idle), [], t0)
  }

  predicate At(s: State, w: nat, p: Phase) {
    w < |s.phases| && s.phases[w] == p
  }

  /** One action; an action that is not enabled changes nothing. */
  function Step(c: Config, s: State, a: Action): State {
    match a
    case Tick(to) => if to < s.clock then s else s.(clock := to)
    case Read(w) =>
      if !At(s, w, Idle) then s else s.(phases := s.phases[w := HasRead(s.clock)])
    case Check(w) =>
      if !(w < |s.phases| && s.phases[w].HasRead?) then s else
      var now := s.phases[w].now;
      var zset := Pruned(s.zset, now - c.window);
      s.(zset := zset,
         phases := s.phases[w := if |zset| < c.maxRequests then Passed(now) else Idle],
         latest := if s.latest < now then now else s.latest)
    case Add(w, id) =>
      if !(w < |s.phases| && s.phases[w].Passed?) then s else
      var m := Member(s.phases[w].now, id);
      s.(zset := s.zset + {m},
         phases := s.phases[w := Idle],
         expires := if m in s.zset then s.expires else s.clock + Retention(c),
         grants := if m in s.zset then s.grants else s.grants + [m])
    case Expire => if s.clock < s.expires then s else s.(zset := {}, latest := s.clock)
    case Abandon(w) =>
      if w < |s.phases| then s.(phases := s.phases[w := Idle]) else s
  }

  function Exec(c: Config, s: State, acts: seq<Action>): State {
    if acts == [] then s else Step(c, Exec(c, s, acts[..|acts| - 1]), acts[|acts| - 1])
  }

  /** The action is not a pipeline executed after the clock moved on from its reading. */
  predicate OnTime(s: State, a: Action) {
    a.Check? && a.w < |s.phases| && s.phases[a.w].HasRead? ==> s.phases[a.w].now == s.clock
  }

  /** The runs of interest: those in which every pipeline executes before the clock moves on from its
      own reading, those in which the key never expires, and all of them. */
  datatype Regime = PromptRuns | NoExpiry | AllRuns

  predicate Allowed(r: Regime, s: State, a: Action) {
    match r
    case PromptRuns => OnTime(s, a)
    case NoExpiry => !a.Expire?
    case AllRuns => true
  }

  predicate Within(c: Config, s: State, acts: seq<Action>, r: Regime) {
    acts != [] ==>
      Within(c, s, acts[..|acts| - 1], r) && Allowed(r, Exec(c, s, acts[..|acts| - 1]), acts[|acts| - 1])
  }

  // ---------------------------------------------------------------- counting

  predicate InWindow(score: real, lo: real, hi: real) {
    lo < score <= hi
  }

  function CountIn(g: seq<Member>, lo: real, hi: real): nat {
    if g == [] then 0
    else CountIn(g[..|g| - 1], lo, hi) + (if InWindow(g[|g| - 1].score, lo, hi) then 1 else 0)
  }

  lemma CountSnoc(g: seq<Member>, m: Member, lo: real, hi: real)
    ensures CountIn(g + [m], lo, hi) == CountIn(g, lo, hi) + (if InWindow(m.score, lo, hi) then 1 else 0)
  {
    assert (g + [m])[..|g|] == g;
  }

  function Range(n: nat): (r: set<nat>)
    ensures |r| == n && forall w: nat :: w in r <==> w < n
  {
    if n == 0 then {} else Range(n - 1) + {n - 1}
  }

  predicate IsPending(p: Phase, lo: real, hi: real) {
    p.Passed? && InWindow(p.now, lo, hi)
  }

  predicate IsStale(p: Phase, hi: real) {
    p.HasRead? && p.now <= hi
  }

  /** Workers that will still add an entry of the window (lo, hi]. */
  function Pending(ph: seq<Phase>, lo: real, hi: real): set<nat> {
    set w: nat | w < |ph| && IsPending(ph[w], lo, hi)
  }

  /** Workers holding a clock reading no later than hi that they have not checked with yet. */
  function Stale(ph: seq<Phase>, hi: real): set<nat> {
    set w: nat | w < |ph| && IsStale(ph[w], hi)
  }

  lemma SameButOne(a: set<nat>, b: set<nat>, w: nat)
    requires a - {w} == b - {w}
    ensures |a| - (if w in a then 1 else 0) == |b| - (if w in b then 1 else 0)
  {
    assert |a - {w}| == |b - {w}|;
  }

  /** How the two sets change, and how large they can be, when worker w moves to phase p. */
  lemma MoveWorker(ph: seq<Phase>, w: nat, p: Phase, lo: real, hi: real)
    requires w < |ph|
    ensures |Pending(ph[w := p], lo, hi)|
         == |Pending(ph, lo, hi)| - (if IsPending(ph[w], lo, hi) then 1 else 0) + (if IsPending(p, lo, hi) then 1 else 0)
    ensures |Stale(ph[w := p], hi)|
         == |Stale(ph, hi)| - (if IsStale(ph[w], hi) then 1 else 0) + (if IsStale(p, hi) then 1 else 0)
    ensures !IsPending(ph[w], lo, hi) ==> |Pending(ph, lo, hi)| <= |ph| - 1
    ensures !IsStale(ph[w], hi) ==> |Stale(ph, hi)| <= |ph| - 1
  {
    var ph' := ph[w := p];
    SameButOne(Pending(ph, lo, hi), Pending(ph', lo, hi), w);
    SameButOne(Stale(ph, hi), Stale(ph', hi), w);
    SubsetSize(Pending(ph, lo, hi) + {w}, Range(|ph|));
    SubsetSize(Stale(ph, hi) + {w}, Range(|ph|));
  }

  lemma SubsetSize<T>(a: set<T>, b: set<T>)
    requires a <= b
    ensures |a| <= |b|
  {
    assert b == a + (b - a);
  }

  /** No entry of the window has been pruned, and no two of them are the same member. */
  predicate Kept(s: State, lo: real, hi: real) {
    && (forall i :: 0 <= i < |s.grants| && InWindow(s.grants[i].score, lo, hi) ==> s.grants[i] in s.zset)
    && (forall i, j :: 0 <= i < j < |s.grants| && InWindow(s.grants[i].score, lo, hi) ==> s.grants[i] != s.grants[j])
  }

  lemma {:induction false} CountAtMost(g: seq<Member>, z: set<Member>, lo: real, hi: real)
    requires forall i :: 0 <= i < |g| && InWindow(g[i].score, lo, hi) ==> g[i] in z
    requires forall i, j :: 0 <= i < j < |g| && InWindow(g[i].score, lo, hi) ==> g[i] != g[j]
    ensures CountIn(g, lo, hi) <= |z|
  {
    if g != [] {
      var last := g[|g| - 1];
      if InWindow(last.score, lo, hi) {
        CountAtMost(g[..|g| - 1], z - {last}, lo, hi);
      } else {
        CountAtMost(g[..|g| - 1], z, lo, hi);
      }
    }
  }

  // ---------------------------------------------------------------- the invariant

  /** Entries of the window (t - W, t] that have been added or are about to be. */
  function Used(c: Config, s: State, t: real): nat {
    CountIn(s.grants, t - c.window, t) + |Pending(s.phases, t - c.window, t)|
  }

  /** The bound for a limit of at least one. Until something prunes past t, nothing of the window is
      lost and the last check that passed saw all that had been added. Afterwards only workers
      still holding an old clock reading can pass. A prompt worker holds none; the worker whose
      pipeline pruned holds none either, but expiry needs no worker. */
  predicate Bounded(c: Config, s: State, t: real, r: Regime) {
    if s.latest <= t then
      Used(c, s, t) <= c.maxRequests + |s.phases| - 1 && Kept(s, t - c.window, t)
    else
      match r
      case PromptRuns => Used(c, s, t) <= c.maxRequests + |s.phases| - 1
      case NoExpiry => Used(c, s, t) + |Stale(s.phases, t)| <= c.maxRequests + 2 * (|s.phases| - 1)
      case AllRuns => Used(c, s, t) + |Stale(s.phases, t)| <= c.maxRequests + 2 * |s.phases| - 1
  }

  /** Readings are in the past, and the key outlives every entry's window. */
  predicate Timely(c: Config, s: State) {
    && s.latest <= s.clock && s.expires <= s.clock + Retention(c)
    && (forall w :: 0 <= w < |s.phases| && !s.phases[w].Idle? ==> s.phases[w].now <= s.clock)
    && (forall i :: 0 <= i < |s.grants| ==> s.grants[i].score + Retention(c) <= s.expires)
  }

  predicate Inv(c: Config, s: State, t: real, r: Regime) {
    && |s.phases| >= 1 && Timely(c, s)
    && (if c.maxRequests < 1
        then s.grants == [] && (forall w :: 0 <= w < |s.phases| ==> !s.phases[w].Passed?)
        else Bounded(c, s, t, r))
  }

  lemma ReadKeepsInv(c: Config, s: State, t: real, r: Regime, w: nat)
    requires Inv(c, s, t, r) && At(s, w, Idle)
    ensures Inv(c, Step(c, s, Read(w)), t, r)
  {
    hide Pending;
    hide Stale;
    MoveWorker(s.phases, w, HasRead(s.clock), t - c.window, t);
  }

  lemma AbandonKeepsInv(c: Config, s: State, t: real, r: Regime, w: nat)
    requires Inv(c, s, t, r) && w < |s.phases|
    ensures Inv(c, Step(c, s, Abandon(w)), t, r)
  {
    hide Pending;
    hide Stale;
    MoveWorker(s.phases, w, Idle, t - c.window, t);
  }

  lemma AddKeepsKept(c: Config, s: State, w: nat, id: int, lo: real, hi: real)
    requires Kept(s, lo, hi)
    ensures Kept(Step(c, s, Add(w, id)), lo, hi)
  {
  }

  lemma AddKeepsBounded(c: Config, s: State, t: real, r: Regime, w: nat, id: int)
    requires Bounded(c, s, t, r) && w < |s.phases| && s.phases[w].Passed?
    ensures Bounded(c, Step(c, s, Add(w, id)), t, r)
  {
    hide Pending;
    hide Stale;
    hide CountIn;
    hide Kept;
    var m := Member(s.phases[w].now, id);
    var s' := Step(c, s, Add(w, id));
    assert s'.phases == s.phases[w := Idle] && s'.latest == s.latest;
    assert s'.grants == s.grants || s'.grants == s.grants + [m];
    MoveWorker(s.phases, w, Idle, t - c.window, t);
    CountSnoc(s.grants, m, t - c.window, t);
    if s.latest <= t { AddKeepsKept(c, s, w, id, t - c.window, t); }
  }

  lemma AddKeepsInv(c: Config, s: State, t: real, r: Regime, w: nat, id: int)
    requires Inv(c, s, t, r) && w < |s.phases| && s.phases[w].Passed?
    ensures Inv(c, Step(c, s, Add(w, id)), t, r)
  {
    hide Bounded;
    if c.maxRequests >= 1 { AddKeepsBounded(c, s, t, r, w, id); }
  }

  /** A check before any prune past t passes only if all added entries of the window, which it
      counts, leave room. The first pipeline to prune past t has a reading after t, so its worker
      is not stale. After that, a check uses up a stale reading or concerns a later window. */
  lemma CheckKeepsInv(c: Config, s: State, t: real, r: Regime, w: nat)
    requires Inv(c, s, t, r) && w < |s.phases| && s.phases[w].HasRead?
    requires r.PromptRuns? ==> s.phases[w].now == s.clock
    ensures Inv(c, Step(c, s, Check(w)), t, r)
  {
    hide Pending;
    hide Stale;
    hide CountIn;
    var s' := Step(c, s, Check(w));
    MoveWorker(s.phases, w, s'.phases[w], t - c.window, t);
    if c.maxRequests >= 1 && s'.latest <= t && |s'.zset| < c.maxRequests {
      CountAtMost(s'.grants, s'.zset, t - c.window, t);
    }
  }

  /** By the time the key expires no window that is still open has any entry. */
  lemma ExpireKeepsInv(c: Config, s: State, t: real, r: Regime)
    requires Inv(c, s, t, r) && !r.NoExpiry?
    ensures Inv(c, Step(c, s, Expire), t, r)
  {
    hide Pending;
    hide CountIn;
    if c.maxRequests >= 1 && s.clock >= s.expires {
      assert Retention(c) > c.window;
      SubsetSize(Stale(s.phases, t), Range(|s.phases|));
    }
  }

  lemma StepKeepsInv(c: Config, s: State, t: real, r: Regime, a: Action)
    requires Inv(c, s, t, r) && Allowed(r, s, a)
    ensures Inv(c, Step(c, s, a), t, r)
  {
    match a
    case Tick(to) =>
    case Read(w) => if At(s, w, Idle) { ReadKeepsInv(c, s, t, r, w); }
    case Check(w) => if w < |s.phases| && s.phases[w].HasRead? { CheckKeepsInv(c, s, t, r, w); }
    case Add(w, id) => if w < |s.phases| && s.phases[w].Passed? { AddKeepsInv(c, s, t, r, w, id); }
    case Expire => ExpireKeepsInv(c, s, t, r);
    case Abandon(w) => if w < |s.phases| { AbandonKeepsInv(c, s, t, r, w); }
  }

  lemma InitInv(c: Config, n: nat, t0: real, t: real, r: Regime)
    requires n >= 1
    ensures Inv(c, Init(c, n, t0), t, r)
  {
    var s := Init(c, n, t0);
    assert Pending(s.phases, t - c.window, t) == {} && Stale(s.phases, t) == {};
  }

  lemma StepKeepsWorkers(c: Config, s: State, a: Action)
    ensures |Step(c, s, a).phases| == |s.phases|
  {
    hide Pruned;
  }

  lemma {:induction false} ExecInv(c: Config, n: nat, t0: real, acts: seq<Action>, t: real, r: Regime)
    requires n >= 1 && Within(c, Init(c, n, t0), acts, r)
    ensures Inv(c, Exec(c, Init(c, n, t0), acts), t, r)
    ensures |Exec(c, Init(c, n, t0), acts).phases| == n
  {
    hide Inv;
    hide Step;
    hide Allowed;
    var s := Init(c, n, t0);
    if acts == [] {
      InitInv(c, n, t0, t, r);
    } else {
      var front, a := acts[..|acts| - 1], acts[|acts| - 1];
      ExecInv(c, n, t0, front, t, r);
      StepKeepsInv(c, Exec(c, s, front), t, r, a);
      StepKeepsWorkers(c, Exec(c, s, front), a);
    }
  }

  // ---------------------------------------------------------------- main results

  /** How many entries of one window a run of n workers can add. */
  function Limit(c: Config, n: nat, r: Regime): int {
    if c.maxRequests < 1 || n == 0 then 0
    else if r.PromptRuns? then c.maxRequests + n - 1
    else if r.NoExpiry? then c.maxRequests + 2 * (n - 1)
    else c.maxRequests + 2 * n - 1
  }

  /** Safety of every run of n workers: every window (t - W, t] holds, by recorded score, at most
      max + n - 1 grants if every pipeline runs on time, at most max + 2(n - 1) if the key never
      expires, and at most max + 2n - 1 in any run. So a single worker keeps to the configured limit
      unless it stalls, between reading the clock and its pipeline, until the key has expired. */
  lemma {:induction false} EveryWindowWithinLimit(c: Config, n: nat, t0: real, acts: seq<Action>, t: real, r: Regime)
    ensures Within(c, Init(c, n, t0), acts, r) ==>
              CountIn(Exec(c, Init(c, n, t0), acts).grants, t - c.window, t) <= Limit(c, n, r)
  {
    hide Exec;
    hide Within;
    hide Pending;
    hide Stale;
    hide Kept;
    hide Timely;
    if n == 0 {
      NoWorkersNoGrants(c, t0, acts);
      assert CountIn([], t - c.window, t) == 0;
    } else if Within(c, Init(c, n, t0), acts, r) {
      ExecInv(c, n, t0, acts, t, r);
    }
  }

  lemma {:induction false} NoWorkersNoGrants(c: Config, t0: real, acts: seq<Action>)
    ensures Exec(c, Init(c, 0, t0), acts).grants == [] && Exec(c, Init(c, 0, t0), acts).phases == []
  {
    if acts != [] {
      NoWorkersNoGrants(c, t0, acts[..|acts| - 1]);
    }
  }

  // ---------------------------------------------------------------- what a check answers

  /** Entries of the set were added, no earlier than time zero and no later than now. */
  predicate Genuine(s: State) {
    && s.clock >= 0.0
    && (forall w :: 0 <= w < |s.phases| && !s.phases[w].Idle? ==> 0.0 <= s.phases[w].now <= s.clock)
    && (forall m :: m in s.zset ==> m in s.grants)
    && (forall i :: 0 <= i < |s.grants| ==> 0.0 <= s.grants[i].score <= s.clock)
  }

  lemma GenuineStep(c: Config, s: State, a: Action)
    requires Genuine(s)
    ensures Genuine(Step(c, s, a))
  {
  }

  lemma {:induction false} ExecGenuine(c: Config, n: nat, t0: real, acts: seq<Action>)
    requires t0 >= 0.0
    ensures Genuine(Exec(c, Init(c, n, t0), acts))
  {
    hide Step;
    if acts != [] {
      ExecGenuine(c, n, t0, acts[..|acts| - 1]);
      GenuineStep(c, Exec(c, Init(c, n, t0), acts[..|acts| - 1]), acts[|acts| - 1]);
    }
  }

  /** A grant keeps the key for the whole seconds of the window and a minute more. */
  lemma GrantRenewsKey(c: Config, s: State, w: nat, id: int)
    requires w < |s.phases| && s.phases[w].Passed? && Member(s.phases[w].now, id) !in s.zset
    ensures Step(c, s, Add(w, id)).expires == s.clock + c.window.Floor as real + 60.0
    ensures Step(c, s, Expire) != s ==> s.clock >= s.expires
  {
  }

  /** How many of the grants are later than lo. */
  function CountAfter(g: seq<Member>, lo: real): nat {
    if g == [] then 0 else CountAfter(g[..|g| - 1], lo) + (if lo < g[|g| - 1].score then 1 else 0)
  }

  lemma {:induction false} CountAtLeast(g: seq<Member>, z: set<Member>, lo: real)
    requires forall m :: m in z ==> m in g && lo < m.score
    ensures |z| <= CountAfter(g, lo)
  {
    if g == [] {
      assert z == {};
    } else {
      var last := g[|g| - 1];
      CountAtLeast(g[..|g| - 1], z - {last}, lo);
      if last !in z {
        assert z - {last} == z;
      }
    }
  }

  lemma {:induction false} CountNoLater(g: seq<Member>, lo: real, hi: real)
    requires forall i :: 0 <= i < |g| ==> g[i].score <= hi
    ensures CountAfter(g, lo) == CountIn(g, lo, hi)
  {
    if g != [] {
      CountNoLater(g[..|g| - 1], lo, hi);
    }
  }

  /** Worker w has read the clock and is about to check. */
  predicate AboutToCheck(s: State, w: nat) {
    w < |s.phases| && s.phases[w].HasRead?
  }

  /** In every run from time zero or later, a worker that is refused has at least maxRequests added
      entries later than a window before its reading; entries that old or older never refuse. */
  lemma RefusedOnlyWhenFull(c: Config, n: nat, t0: real, acts: seq<Action>, w: nat)
    requires t0 >= 0.0 && AboutToCheck(Exec(c, Init(c, n, t0), acts), w)
    ensures var s := Exec(c, Init(c, n, t0), acts);
            var now, p := s.phases[w].now, Step(c, s, Check(w)).phases[w];
            && (p == Passed(now) || p == Idle)
            && (p == Idle ==> CountAfter(s.grants, now - c.window) >= c.maxRequests)
  {
    hide Exec;
    ExecGenuine(c, n, t0, acts);
    var s := Exec(c, Init(c, n, t0), acts);
    var now := s.phases[w].now;
    CountAtLeast(s.grants, Step(c, s, Check(w)).zset, now - c.window);
  }

  /** A check that runs on time is exact: it passes iff fewer than maxRequests grants lie in the
      trailing window (now - W, now]. */
  lemma PromptCheckIsExact(c: Config, n: nat, t0: real, acts: seq<Action>, w: nat)
    requires t0 >= 0.0 && AboutToCheck(Exec(c, Init(c, n, t0), acts), w)
    requires OnTime(Exec(c, Init(c, n, t0), acts), Check(w))
    ensures var s := Exec(c, Init(c, n, t0), acts);
            Step(c, s, Check(w)).phases[w] == Passed(s.clock) <==>
              CountIn(s.grants, s.clock - c.window, s.clock) < c.maxRequests
  {
    hide Exec;
    hide CountIn;
    var s := Exec(c, Init(c, n, t0), acts);
    ExecGenuine(c, n, t0, acts);
    CountNoLater(s.grants, s.clock - c.window, s.clock);
    RefusedOnlyWhenFull(c, n, t0, acts, w);
    EveryRunIsAllowed(c, Init(c, n, t0), acts);
    if n == 0 {
      NoWorkersNoGrants(c, t0, acts);
    } else {
      ExecInv(c, n, t0, acts, s.clock, AllRuns);
      if c.maxRequests >= 1 {
        EntriesInWindowRemain(c, s, w);
      }
    }
  }

  /** After an on-time check the set holds every grant of the trailing window. */
  lemma EntriesInWindowRemain(c: Config, s: State, w: nat)
    requires AboutToCheck(s, w) && s.phases[w].now == s.clock && Genuine(s)
    requires Kept(s, s.clock - c.window, s.clock)
    ensures CountIn(s.grants, s.clock - c.window, s.clock) <= |Step(c, s, Check(w)).zset|
  {
    CountAtMost(s.grants, Step(c, s, Check(w)).zset, s.clock - c.window, s.clock);
  }

  lemma {:induction false} EveryRunIsAllowed(c: Config, s: State, acts: seq<Action>)
    ensures Within(c, s, acts, AllRuns)
  {
    if acts != [] {
      EveryRunIsAllowed(c, s, acts[..|acts| - 1]);
    }
  }
}
