/** Who holds a job: when at most one worker of the queue runs a job at a time, and exactly when a
    second one can come to hold it. */
module JobHolders {
  import opened JobQueue
  import opened JobQueueRuns
  import opened Wrappers

  // ---------------------------------------------------------------- one holder while data is live

  /** Every job held by a live worker still has its data. */
  predicate HeldIsFresh(s: State) {
    forall w :: w in s.running ==> Live(s.k.data, s.running[w], s.clock)
  }

  predicate AlwaysFresh(ttl: real, t0: real, acts: seq<Action>) {
    HeldIsFresh(Run(ttl, t0, acts)) && (acts != [] ==> AlwaysFresh(ttl, t0, acts[..|acts| - 1]))
  }

  /** No two workers hold the same job, and held jobs are in progress. */
  predicate HeldOnce(s: State) {
    && (forall v, w :: v in s.running && w in s.running && s.running[v] == s.running[w] ==> v == w)
    && (forall w :: w in s.running ==> s.running[w] in s.k.processing)
  }

  lemma HeldOnceStep(ttl: real, s: State, a: Action)
    requires Exclusive(s.k, s.clock) && HeldOnce(s) && HeldIsFresh(s)
    ensures HeldOnce(Step(ttl, s, a))
  {
    hide Strip;
    if a.PullJob? && s.k.pending != [] {
      assert s.k.pending[0] in s.k.pending;
    }
  }

  /** If at every moment the jobs that workers hold still have live data, that is if no job runs past
      its TTL, then no job is ever held by two workers, and every held job is in progress. */
  lemma {:induction false} FreshJobsRunOnce(ttl: real, t0: real, acts: seq<Action>)
    requires AlwaysFresh(ttl, t0, acts)
    ensures HeldOnce(Run(ttl, t0, acts))
  {
    if acts != [] {
      var front := acts[..|acts| - 1];
      FreshJobsRunOnce(ttl, t0, front);
      RunInv(ttl, t0, front);
      hide Exclusive;
      HeldOnceStep(ttl, Run(ttl, t0, front), acts[|acts| - 1]);
    }
  }

  // ---------------------------------------------------------------- when a second holder can come

  predicate TwoHold(s: State, j: Id) {
    exists v, w :: v != w && v in s.running && w in s.running && s.running[v] == j == s.running[w]
  }

  /** Job j can be handed out: it is queued with live data, or a scan would queue it now. */
  predicate Available(k: Keys, now: real, j: Id) {
    || (j in k.pending && Live(k.data, j, now))
    || (j in k.processing && !Live(k.data, j, now) && Live(k.backup, j, now))
  }

  /** The clock does not move. */
  predicate Instant(acts: seq<Action>) {
    forall i :: 0 <= i < |acts| ==> !acts[i].Tick?
  }

  predicate OneHolderAtMost(s: State, j: Id) {
    j in s.created && !TwoHold(s, j) && !Available(s.k, s.clock, j)
  }

  lemma UnavailablePull(ttl: real, k: Keys, now: real, j: Id)
    requires Exclusive(k, now) && !Available(k, now, j)
    ensures !Available(Pull(k, ttl, now).0, now, j)
    ensures var r := Pull(k, ttl, now).1; r.Some? ==> r.value.0 != j
  {
    if k.pending != [] {
      assert k.pending[0] in k.pending;
    }
  }

  lemma UnavailableVisit(ttl: real, k: Keys, now: real, i: Id, j: Id)
    requires Exclusive(k, now) && !Available(k, now, j)
    ensures !Available(Visit(k, ttl, now, i).0, now, j)
  {
    hide Strip;
  }

  lemma UnavailableCreate(ttl: real, k: Keys, now: real, i: Id, p: Payload, j: Id)
    requires !Available(k, now, j) && i != j
    ensures !Available(Create(k, ttl, now, i, p), now, j)
  {
  }

  lemma UnavailableComplete(ttl: real, k: Keys, now: real, i: Id, result: Payload, status: string, j: Id)
    requires !Available(k, now, j)
    ensures !Available(Complete(k, ttl, now, i, result, status), now, j)
  {
  }

  lemma UnavailableStep(ttl: real, s: State, a: Action, j: Id)
    requires Exclusive(s.k, s.clock) && OneHolderAtMost(s, j) && !a.Tick?
    ensures OneHolderAtMost(Step(ttl, s, a), j)
  {
    hide Available;
    hide Exclusive;
    hide Pull;
    hide Visit;
    hide Create;
    hide Complete;
    if Enabled(s, a) {
      match a
      case CreateJob(i, p) => UnavailableCreate(ttl, s.k, s.clock, i, p, j);
      case PullJob(w) =>
        UnavailablePull(ttl, s.k, s.clock, j);
        var s', r := Step(ttl, s, a), Pull(s.k, ttl, s.clock).1;
        assert s'.running == if r.Some? then s.running[w := r.value.0] else s.running;
        forall x | x in s'.running && s'.running[x] == j ensures x in s.running && s.running[x] == j {
          assert r.Some? ==> x != w;
        }
      case Finish(w, result, status) => UnavailableComplete(ttl, s.k, s.clock, s.running[w], result, status, j);
      case ScanOne(_, i) => UnavailableVisit(ttl, s.k, s.clock, i, j);
      case _ =>
    }
  }

  lemma RunAppend(ttl: real, t0: real, acts: seq<Action>, a: Action)
    ensures Run(ttl, t0, acts + [a]) == Step(ttl, Run(ttl, t0, acts), a)
  {
    RunSnoc(ttl, ttl, t0, acts, a);
  }

  lemma {:induction false} UnavailableStays(ttl: real, t0: real, acts: seq<Action>, more: seq<Action>, j: Id)
    requires OneHolderAtMost(Run(ttl, t0, acts), j) && Instant(more)
    ensures OneHolderAtMost(Run(ttl, t0, acts + more), j)
  {
    hide Run;
    hide OneHolderAtMost;
    if more == [] {
      assert acts + more == acts;
    } else {
      var front, a := more[..|more| - 1], more[|more| - 1];
      UnavailableStays(ttl, t0, acts, front, j);
      assert acts + more == (acts + front) + [a];
      RunAppend(ttl, t0, acts + front, a);
      RunInv(ttl, t0, acts + front);
      UnavailableStep(ttl, Run(ttl, t0, acts + front), a, j);
    }
  }

  /** Some worker neither holds a job nor scans. */
  lemma FreeWorker(s: State) returns (v: Worker)
    ensures v !in s.running && v !in s.scans
  {
    var busy := s.running.Keys + s.scans.Keys;
    v := Unused(busy);
  }

  lemma Unused(busy: set<Worker>) returns (v: Worker)
    ensures v !in busy
  {
    var n := 0;
    var rest := busy;
    while n in rest
      invariant forall w :: w in busy && w >= n ==> w in rest
      decreases rest
    {
      rest := rest - {n};
      n := n + 1;
    }
    v := n;
  }

  /** Worker v, pulling and giving up what comes first, reaches job j in the queue. */
  lemma {:induction false} PullThrough(ttl: real, t0: real, acts: seq<Action>, v: Worker, w: Worker, j: Id) returns (more: seq<Action>)
    requires var s := Run(ttl, t0, acts);
      v !in s.running && w in s.running && s.running[w] == j && j in s.k.pending && Live(s.k.data, j, s.clock)
    ensures Instant(more) && TwoHold(Run(ttl, t0, acts + more), j)
    decreases |Run(ttl, t0, acts).k.pending|
  {
    hide Run;
    hide TwoHold;
    var s := Run(ttl, t0, acts);
    RunAppend(ttl, t0, acts, PullJob(v));
    var s' := Run(ttl, t0, acts + [PullJob(v)]);
    if s.k.pending[0] == j {
      more := [PullJob(v)];
      BothHold(s', v, w, j);
    } else {
      RunAppend(ttl, t0, acts + [PullJob(v)], Crash(v));
      var rest := PullThrough(ttl, t0, acts + [PullJob(v)] + [Crash(v)], v, w, j);
      more := [PullJob(v), Crash(v)] + rest;
      assert acts + more == acts + [PullJob(v)] + [Crash(v)] + rest;
    }
  }

  lemma BothHold(s: State, v: Worker, w: Worker, j: Id)
    requires v != w && v in s.running && w in s.running && s.running[v] == j == s.running[w]
    ensures TwoHold(s, j)
  {
  }

  /** A scan by worker v puts an overdue job back on the queue. */
  lemma ScanRequeues(ttl: real, t0: real, acts: seq<Action>, v: Worker, j: Id)
    requires var s := Run(ttl, t0, acts);
      && ttl > 0.0 && v !in s.scans && j in s.k.processing
      && !Live(s.k.data, j, s.clock) && Live(s.k.backup, j, s.clock)
    ensures var s, s' := Run(ttl, t0, acts), Run(ttl, t0, acts + [BeginScan(v)] + [ScanOne(v, j)]);
      s'.running == s.running && j in s'.k.pending && Live(s'.k.data, j, s'.clock)
  {
    hide Run;
    hide Strip;
    RunAppend(ttl, t0, acts, BeginScan(v));
    RunAppend(ttl, t0, acts + [BeginScan(v)], ScanOne(v, j));
  }

  lemma SecondHolderCanCome(ttl: real, t0: real, acts: seq<Action>, w: Worker, j: Id) returns (more: seq<Action>)
    requires var s := Run(ttl, t0, acts);
      ttl > 0.0 && w in s.running && s.running[w] == j && Available(s.k, s.clock, j)
    ensures Instant(more) && TwoHold(Run(ttl, t0, acts + more), j)
  {
    hide Run;
    hide TwoHold;
    var s := Run(ttl, t0, acts);
    var v := FreeWorker(s);
    if j in s.k.pending && Live(s.k.data, j, s.clock) {
      more := PullThrough(ttl, t0, acts, v, w, j);
    } else {
      ScanRequeues(ttl, t0, acts, v, j);
      var rest := PullThrough(ttl, t0, acts + [BeginScan(v)] + [ScanOne(v, j)], v, w, j);
      more := [BeginScan(v), ScanOne(v, j)] + rest;
      assert acts + more == acts + [BeginScan(v)] + [ScanOne(v, j)] + rest;
    }
  }

  /** The exact condition: at any moment of any run, while some worker holds job j, workers can bring
      about that two hold it at that same moment if and only if two already do, or j is queued with
      live data, or j is overdue, that is in progress with its data expired and its backup live. */
  lemma SecondHolderIff(ttl: real, t0: real, acts: seq<Action>, w: Worker, j: Id)
    requires ttl > 0.0 && w in Run(ttl, t0, acts).running && Run(ttl, t0, acts).running[w] == j
    ensures (exists more :: Instant(more) && TwoHold(Run(ttl, t0, acts + more), j)) <==>
              TwoHold(Run(ttl, t0, acts), j) || Available(Run(ttl, t0, acts).k, Run(ttl, t0, acts).clock, j)
  {
    hide Run;
    var s := Run(ttl, t0, acts);
    if TwoHold(s, j) {
      assert acts + [] == acts;
      assert Instant([]);
    } else if Available(s.k, s.clock, j) {
      var more := SecondHolderCanCome(ttl, t0, acts, w, j);
    } else {
      RunInv(ttl, t0, acts);
      forall more | Instant(more) ensures !TwoHold(Run(ttl, t0, acts + more), j) {
        UnavailableStays(ttl, t0, acts, more, j);
      }
    }
  }
}
