/** The bounds on the Redis rate limiter are exact: runs that attain them, for every configuration. */
module RedisBounds {
  import opened RedisLimiter

  // ---------------------------------------------------------------- building runs

  /** A prompt run in which the key never expires. */
  predicate Clean(c: Config, s: State, acts: seq<Action>) {
    Within(c, s, acts, PromptRuns) && Within(c, s, acts, NoExpiry)
  }

  lemma {:induction false} ExecSnoc(c: Config, s: State, acts: seq<Action>, a: Action)
    ensures Exec(c, s, acts + [a]) == Step(c, Exec(c, s, acts), a)
    ensures Within(c, s, acts + [a], NoExpiry) <==> Within(c, s, acts, NoExpiry) && !a.Expire?
    ensures OnTime(Exec(c, s, acts), a) && !a.Expire? ==> (Clean(c, s, acts + [a]) <==> Clean(c, s, acts))
  {
    assert (acts + [a])[..|acts|] == acts;
  }

  /** All workers idle at half a window after time zero; k entries, with ids below k, all made then. */
  predicate Quiet(c: Config, s: State, n: nat, k: nat) {
    && s.clock == c.window / 2.0
    && |s.phases| == n && (forall w :: 0 <= w < n ==> s.phases[w] == Idle)
    && |s.grants| == |s.zset| == k
    && (forall i :: 0 <= i < k ==> s.grants[i].score == c.window / 2.0)
    && (forall m :: m in s.zset ==> m.score == c.window / 2.0 && m.id < k)
  }

  /** Nothing is pruned at half a window after time zero. */
  lemma NothingToPrune(c: Config, z: set<Member>)
    requires c.window > 0.0 && forall m :: m in z ==> m.score > 0.0
    ensures Pruned(z, c.window / 2.0 - c.window) == z && Pruned(z, c.window - c.window) == z
  {
  }

  /** One worker after another fills the window up to one short of the limit. */
  lemma FillUp(c: Config, n: nat) returns (acts: seq<Action>)
    requires c.maxRequests >= 1 && c.window > 0.0 && n >= 1
    ensures Quiet(c, Exec(c, Init(c, n, 0.0), acts), n, c.maxRequests - 1)
    ensures Clean(c, Init(c, n, 0.0), acts)
  {
    var s0 := Init(c, n, 0.0);
    acts := [Tick(c.window / 2.0)];
    ExecSnoc(c, s0, [], acts[0]);
    assert acts == [] + [acts[0]];
    var k := 0;
    while k < c.maxRequests - 1
      invariant 0 <= k <= c.maxRequests - 1
      invariant Quiet(c, Exec(c, s0, acts), n, k) && Clean(c, s0, acts)
    {
      acts := OneGrant(c, n, acts, k);
      k := k + 1;
    }
  }

  /** An idle worker that finds room and nothing to prune is granted, and is idle again. */
  lemma WholeLoop(c: Config, s: State, w: nat, id: int)
    requires At(s, w, Idle) && Pruned(s.zset, s.clock - c.window) == s.zset && |s.zset| < c.maxRequests
    requires Member(s.clock, id) !in s.zset
    ensures var s' := Step(c, Step(c, Step(c, s, Read(w)), Check(w)), Add(w, id));
      && s'.clock == s.clock && s'.phases == s.phases
      && s'.zset == s.zset + {Member(s.clock, id)} && s'.grants == s.grants + [Member(s.clock, id)]
    ensures OnTime(Step(c, s, Read(w)), Check(w))
  {
    hide Pruned;
  }

  lemma OneGrant(c: Config, n: nat, acts: seq<Action>, k: nat) returns (longer: seq<Action>)
    requires c.window > 0.0 && n >= 1 && k < c.maxRequests
    requires Quiet(c, Exec(c, Init(c, n, 0.0), acts), n, k) && Clean(c, Init(c, n, 0.0), acts)
    ensures Quiet(c, Exec(c, Init(c, n, 0.0), longer), n, k + 1) && Clean(c, Init(c, n, 0.0), longer)
  {
    hide Exec;
    hide Clean;
    hide Pruned;
    hide Step;
    var s0 := Init(c, n, 0.0);
    var s := Exec(c, s0, acts);
    NothingToPrune(c, s.zset);
    WholeLoop(c, s, 0, k);
    ExecSnoc(c, s0, acts, Read(0));
    ExecSnoc(c, s0, acts + [Read(0)], Check(0));
    ExecSnoc(c, s0, acts + [Read(0)] + [Check(0)], Add(0, k));
    longer := acts + [Read(0)] + [Check(0)] + [Add(0, k)];
  }

  /** The first w workers have passed their check, and none of them has added yet. */
  predicate Poised(c: Config, s: State, n: nat, k: nat, w: nat) {
    && s.clock == c.window / 2.0
    && |s.phases| == n && w <= n
    && (forall i :: 0 <= i < n ==> s.phases[i] == if i < w then Passed(c.window / 2.0) else Idle)
    && |s.grants| == |s.zset| == k
    && (forall i :: 0 <= i < k ==> s.grants[i].score == c.window / 2.0)
    && (forall m :: m in s.zset ==> m.score == c.window / 2.0 && m.id < k)
  }

  lemma AllPass(c: Config, n: nat, before: seq<Action>) returns (acts: seq<Action>)
    requires c.maxRequests >= 1 && c.window > 0.0 && n >= 1
    requires Quiet(c, Exec(c, Init(c, n, 0.0), before), n, c.maxRequests - 1) && Clean(c, Init(c, n, 0.0), before)
    ensures Poised(c, Exec(c, Init(c, n, 0.0), acts), n, c.maxRequests - 1, n) && Clean(c, Init(c, n, 0.0), acts)
  {
    var s0 := Init(c, n, 0.0);
    acts := before;
    var w := 0;
    while w < n
      invariant 0 <= w <= n
      invariant Poised(c, Exec(c, s0, acts), n, c.maxRequests - 1, w) && Clean(c, s0, acts)
    {
      acts := OnePass(c, n, acts, w);
      w := w + 1;
    }
  }

  lemma OnePass(c: Config, n: nat, acts: seq<Action>, w: nat) returns (longer: seq<Action>)
    requires c.maxRequests >= 1 && c.window > 0.0 && w < n
    requires Poised(c, Exec(c, Init(c, n, 0.0), acts), n, c.maxRequests - 1, w) && Clean(c, Init(c, n, 0.0), acts)
    ensures Poised(c, Exec(c, Init(c, n, 0.0), longer), n, c.maxRequests - 1, w + 1) && Clean(c, Init(c, n, 0.0), longer)
  {
    hide Exec;
    hide Clean;
    hide Pruned;
    var s0 := Init(c, n, 0.0);
    NothingToPrune(c, Exec(c, s0, acts).zset);
    ExecSnoc(c, s0, acts, Read(w));
    ExecSnoc(c, s0, acts + [Read(w)], Check(w));
    longer := acts + [Read(w)] + [Check(w)];
  }

  /** The last workers, from w on, still have their entry to add; k entries are in. */
  predicate Adding(c: Config, s: State, n: nat, k: nat, w: nat) {
    && s.clock == c.window / 2.0
    && |s.phases| == n && w <= n
    && (forall i :: 0 <= i < n ==> s.phases[i] == if i < w then Idle else Passed(c.window / 2.0))
    && |s.grants| == k
    && (forall i :: 0 <= i < k ==> s.grants[i].score == c.window / 2.0)
    && (forall m :: m in s.zset ==> m.score == c.window / 2.0 && m.id < k)
  }

  lemma AllAdd(c: Config, n: nat, before: seq<Action>) returns (acts: seq<Action>)
    requires c.maxRequests >= 1 && n >= 1
    requires Poised(c, Exec(c, Init(c, n, 0.0), before), n, c.maxRequests - 1, n) && Clean(c, Init(c, n, 0.0), before)
    ensures Adding(c, Exec(c, Init(c, n, 0.0), acts), n, c.maxRequests - 1 + n, n) && Clean(c, Init(c, n, 0.0), acts)
  {
    hide Exec;
    hide Clean;
    var s0 := Init(c, n, 0.0);
    acts := before;
    var w := 0;
    while w < n
      invariant 0 <= w <= n
      invariant Adding(c, Exec(c, s0, acts), n, c.maxRequests - 1 + w, w) && Clean(c, s0, acts)
    {
      ExecSnoc(c, s0, acts, Add(w, c.maxRequests - 1 + w));
      acts := acts + [Add(w, c.maxRequests - 1 + w)];
      w := w + 1;
    }
  }

  /** The grants are k in number and all of the window (0, W]. */
  predicate AllInWindow(c: Config, s: State, n: nat, k: nat) {
    && |s.phases| == n && |s.grants| == k
    && forall i :: 0 <= i < k ==> InWindow(s.grants[i].score, 0.0, c.window)
  }

  /** After the adds, the first m workers have read the clock at the end of the window, and stall. */
  predicate Stalled(c: Config, s: State, n: nat, k: nat, m: nat) {
    && m <= n && AllInWindow(c, s, n, k) && c.window <= s.clock
    && (forall i :: 0 <= i < n ==> s.phases[i] == if i < m then HasRead(c.window) else Idle)
  }

  lemma SomeRead(c: Config, n: nat, k: nat, m: nat, before: seq<Action>) returns (acts: seq<Action>)
    requires c.window > 0.0 && m <= n
    requires Adding(c, Exec(c, Init(c, n, 0.0), before), n, k, n) && Within(c, Init(c, n, 0.0), before, NoExpiry)
    ensures var s := Exec(c, Init(c, n, 0.0), acts);
      Stalled(c, s, n, k, m) && s.clock == c.window && forall x :: x in s.zset ==> x.score == c.window / 2.0
    ensures Within(c, Init(c, n, 0.0), acts, NoExpiry)
  {
    hide Exec;
    hide Within;
    var s0 := Init(c, n, 0.0);
    ExecSnoc(c, s0, before, Tick(c.window));
    acts := before + [Tick(c.window)];
    var w := 0;
    while w < m
      invariant 0 <= w <= m && Within(c, s0, acts, NoExpiry)
      invariant var s := Exec(c, s0, acts);
        Stalled(c, s, n, k, w) && s.clock == c.window && forall x :: x in s.zset ==> x.score == c.window / 2.0
    {
      ExecSnoc(c, s0, acts, Read(w));
      acts := acts + [Read(w)];
      w := w + 1;
    }
  }

  /** The last worker, a window later, empties the set by pruning. */
  lemma LastPrunes(c: Config, n: nat, k: nat, before: seq<Action>) returns (acts: seq<Action>)
    requires c.maxRequests >= 1 && c.window > 0.0 && n >= 1
    requires var s := Exec(c, Init(c, n, 0.0), before);
      Stalled(c, s, n, k, n - 1) && s.clock == c.window && forall x :: x in s.zset ==> x.score == c.window / 2.0
    requires Within(c, Init(c, n, 0.0), before, NoExpiry)
    ensures var s := Exec(c, Init(c, n, 0.0), acts); Passing(c, s, n, k, n - 1, 0)
    ensures Within(c, Init(c, n, 0.0), acts, NoExpiry)
  {
    hide Exec;
    hide Within;
    var s0 := Init(c, n, 0.0);
    ExecSnoc(c, s0, before, Tick(2.0 * c.window));
    acts := before + [Tick(2.0 * c.window)];
    ExecSnoc(c, s0, acts, Read(n - 1));
    acts := acts + [Read(n - 1)];
    ExecSnoc(c, s0, acts, Check(n - 1));
    acts := acts + [Check(n - 1)];
    assert Exec(c, s0, acts).zset == {};
  }

  /** Nobody is granted for so long that the key expires. */
  lemma KeyExpires(c: Config, n: nat, k: nat, before: seq<Action>) returns (acts: seq<Action>)
    requires var s := Exec(c, Init(c, n, 0.0), before); Stalled(c, s, n, k, n)
    ensures var s := Exec(c, Init(c, n, 0.0), acts); Passing(c, s, n, k, n, 0)
  {
    hide Exec;
    hide Within;
    var s0 := Init(c, n, 0.0);
    var s := Exec(c, s0, before);
    var late := if s.expires < s.clock then s.clock else s.expires;
    ExecSnoc(c, s0, before, Tick(late));
    acts := before + [Tick(late)];
    ExecSnoc(c, s0, acts, Expire);
    acts := acts + [Expire];
  }

  /** The set is empty, and the first w of the m stalled workers have passed. */
  predicate Passing(c: Config, s: State, n: nat, k: nat, m: nat, w: nat) {
    && w <= m <= n && AllInWindow(c, s, n, k) && s.zset == {}
    && (forall i :: 0 <= i < m ==> s.phases[i] == if i < w then Passed(c.window) else HasRead(c.window))
  }

  lemma StalePass(c: Config, n: nat, k: nat, m: nat, before: seq<Action>) returns (acts: seq<Action>)
    requires c.maxRequests >= 1 && Passing(c, Exec(c, Init(c, n, 0.0), before), n, k, m, 0)
    ensures Passing(c, Exec(c, Init(c, n, 0.0), acts), n, k, m, m)
    ensures Within(c, Init(c, n, 0.0), before, NoExpiry) ==> Within(c, Init(c, n, 0.0), acts, NoExpiry)
  {
    hide Exec;
    hide Within;
    var s0 := Init(c, n, 0.0);
    acts := before;
    var w := 0;
    while w < m
      invariant 0 <= w <= m && Passing(c, Exec(c, s0, acts), n, k, m, w)
      invariant Within(c, s0, before, NoExpiry) ==> Within(c, s0, acts, NoExpiry)
    {
      ExecSnoc(c, s0, acts, Check(w));
      acts := acts + [Check(w)];
      assert Exec(c, s0, acts).zset == {};
      w := w + 1;
    }
  }

  lemma StaleAdd(c: Config, n: nat, k: nat, m: nat, before: seq<Action>) returns (acts: seq<Action>)
    requires c.window > 0.0 && Passing(c, Exec(c, Init(c, n, 0.0), before), n, k, m, m)
    ensures AllInWindow(c, Exec(c, Init(c, n, 0.0), acts), n, k + m)
    ensures Within(c, Init(c, n, 0.0), before, NoExpiry) ==> Within(c, Init(c, n, 0.0), acts, NoExpiry)
  {
    hide Exec;
    hide Within;
    var s0 := Init(c, n, 0.0);
    acts := before;
    var w := 0;
    while w < m
      invariant 0 <= w <= m
      invariant var s := Exec(c, s0, acts);
        && AllInWindow(c, s, n, k + w)
        && (forall x :: x in s.zset ==> x.id < w)
        && (forall i :: w <= i < m ==> s.phases[i] == Passed(c.window))
      invariant Within(c, s0, before, NoExpiry) ==> Within(c, s0, acts, NoExpiry)
    {
      ExecSnoc(c, s0, acts, Add(w, w));
      acts := acts + [Add(w, w)];
      w := w + 1;
    }
  }

  lemma {:induction false} CountAll(g: seq<Member>, lo: real, hi: real)
    requires forall i :: 0 <= i < |g| ==> InWindow(g[i].score, lo, hi)
    ensures CountIn(g, lo, hi) == |g|
  {
    if g != [] {
      CountAll(g[..|g| - 1], lo, hi);
    }
  }

  /** None of the bounds can be improved: for every limit, window and number of workers, and each of
      the three kinds of run, some run has exactly that many grants in one window. */
  lemma LimitsAreAttained(c: Config, n: nat, r: Regime) returns (acts: seq<Action>)
    requires c.maxRequests >= 1 && c.window > 0.0 && n >= 1
    ensures Within(c, Init(c, n, 0.0), acts, r)
    ensures CountIn(Exec(c, Init(c, n, 0.0), acts).grants, 0.0, c.window) == Limit(c, n, r)
  {
    var k := c.maxRequests - 1 + n;
    acts := FillUp(c, n);
    acts := AllPass(c, n, acts);
    acts := AllAdd(c, n, acts);
    if !r.PromptRuns? {
      var m := if r.NoExpiry? then n - 1 else n;
      acts := SomeRead(c, n, k, m, acts);
      if r.NoExpiry? {
        acts := LastPrunes(c, n, k, acts);
      } else {
        acts := KeyExpires(c, n, k, acts);
      }
      acts := StalePass(c, n, k, m, acts);
      acts := StaleAdd(c, n, k, m, acts);
      EveryRunIsAllowed(c, Init(c, n, 0.0), acts);
    }
    CountAll(Exec(c, Init(c, n, 0.0), acts).grants, 0.0, c.window);
  }
}
