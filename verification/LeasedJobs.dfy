/** The job queue and the worktree lock together: workers pull jobs, lock the worktree of the job's
    conversation under the job's id, and release it before they pull again. The queue's own
    re-queueing is what can give two workers one job id; here it is part of the run. */
module LeasedJobs {
  import K = JobQueue
  import Q = JobQueueRuns
  import H = JobHolders
  import L = WorktreeLock

  /** A lock a live worker has acquired and not released: key, job id, and when the key expires. */
  datatype Lease = Lease(key: string, job: K.Id, until: int)

  datatype State = State(q: Q.State, store: L.Store, leases: map<Q.Worker, Lease>)

  datatype Action =
    | Queue(a: Q.Action)
    | Acquire(w: Q.Worker, lockTtl: int)
    | Release(w: Q.Worker)
    | Update(w: Q.Worker, f: L.Field)

  /** The queue's clock in the lock's milliseconds. */
  function Ms(clock: real): int {
    (clock * 1000.0).Floor
  }

  function Now(s: State): int {
    Ms(s.q.clock)
  }

  function Init(t0: real): State {
    State(Q.Init(t0), map[], map[])
  }

  /** The leases after the deadline of a key, which names `job`, was moved. */
  function Moved(leases: map<Q.Worker, Lease>, key: string, job: K.Id, deadline: int): map<Q.Worker, Lease> {
    map w | w in leases :: if leases[w].key == key && leases[w].job == job then leases[w].(until := deadline) else leases[w]
  }

  /** One action; an action that is not enabled changes nothing. `conv` is the lock key of a job's
      conversation. */
  function Step(ttl: real, conv: K.Id -> string, s: State, a: Action): State {
    match a
    case Queue(qa) =>
      if qa.PullJob? && qa.w in s.leases then s
      else s.(q := Q.Step(ttl, s.q, qa), leases := if qa.Crash? then s.leases - {qa.w} else s.leases)
    case Acquire(w, lockTtl) =>
      if w !in s.q.running || w in s.leases then s else
      var job := s.q.running[w];
      var (store, ok) := L.SetIfAbsent(s.store, conv(job), Now(s), job, lockTtl);
      if !ok then s else s.(store := store, leases := s.leases[w := Lease(conv(job), job, Now(s) + 1000 * lockTtl)])
    case Release(w) =>
      if w !in s.leases then s else
      s.(store := L.CompareDelete(s.store, s.leases[w].key, Now(s), s.leases[w].job).0, leases := s.leases - {w})
    case Update(w, f) =>
      if w !in s.leases then s else
      var key := s.leases[w].key;
      var store := L.UpdateField(s.store, key, Now(s), f).0;
      s.(store := store,
         leases := if key in s.store then Moved(s.leases, key, s.store[key].info.jobId, store[key].deadline) else s.leases)
  }

  function Run(ttl: real, conv: K.Id -> string, t0: real, acts: seq<Action>): State {
    if acts == [] then Init(t0) else Step(ttl, conv, Run(ttl, conv, t0, acts[..|acts| - 1]), acts[|acts| - 1])
  }

  /** At every moment of the run the jobs that workers hold still have live data. */
  predicate AlwaysFresh(ttl: real, conv: K.Id -> string, t0: real, acts: seq<Action>) {
    && H.HeldIsFresh(Run(ttl, conv, t0, acts).q)
    && (acts != [] ==> AlwaysFresh(ttl, conv, t0, acts[..|acts| - 1]))
  }

  predicate InLease(s: State, w: Q.Worker) {
    w in s.leases && Now(s) < s.leases[w].until
  }

  // ---------------------------------------------------------------- jobs that are over

  /** Nobody holds the job and nobody will be given it again. */
  predicate Retired(q: Q.State, j: K.Id) {
    j in q.created && j !in q.k.pending && j !in q.k.processing && forall w :: w in q.running ==> q.running[w] != j
  }

  lemma RetiredPull(ttl: real, q: Q.State, w: Q.Worker, j: K.Id)
    requires Retired(q, j)
    ensures Retired(Q.Step(ttl, q, Q.PullJob(w)), j)
  {
    if q.k.pending != [] {
      assert q.k.pending[0] in q.k.pending;
    }
  }

  lemma RetiredScan(ttl: real, q: Q.State, w: Q.Worker, i: K.Id, j: K.Id)
    requires Q.Exclusive(q.k, q.clock) && Retired(q, j)
    ensures Retired(Q.Step(ttl, q, Q.ScanOne(w, i)), j)
  {
    hide K.Strip;
  }

  lemma RetiredStep(ttl: real, q: Q.State, a: Q.Action, j: K.Id)
    requires Q.Exclusive(q.k, q.clock) && Retired(q, j)
    ensures Retired(Q.Step(ttl, q, a), j)
  {
    match a
    case PullJob(w) => RetiredPull(ttl, q, w, j);
    case ScanOne(w, i) => RetiredScan(ttl, q, w, i, j);
    case _ =>
  }

  // ---------------------------------------------------------------- the invariant

  /** A lease is for the job its worker holds, or for one that is over. */
  predicate Backed(q: Q.State, w: Q.Worker, j: K.Id) {
    (w in q.running && q.running[w] == j) || Retired(q, j)
  }

  predicate AllBacked(s: State) {
    forall w :: w in s.leases ==> Backed(s.q, w, s.leases[w].job)
  }

  predicate OneLeasePerJob(s: State) {
    forall v, w :: v in s.leases && w in s.leases && s.leases[v].job == s.leases[w].job ==> v == w
  }

  /** A worker inside its lease is the job named in the key, which expires with the lease. */
  predicate Protected(s: State, w: Q.Worker)
    requires w in s.leases
  {
    var l := s.leases[w];
    Now(s) < l.until ==> l.key in s.store && s.store[l.key].info.jobId == l.job && s.store[l.key].deadline == l.until
  }

  predicate AllProtected(s: State) {
    forall w :: w in s.leases ==> Protected(s, w)
  }

  predicate Inv(ttl: real, s: State) {
    && Q.Inv(ttl, s.q) && H.HeldOnce(s.q)
    && AllBacked(s) && OneLeasePerJob(s) && AllProtected(s)
  }

  lemma BackedStep(ttl: real, q: Q.State, a: Q.Action, w: Q.Worker, j: K.Id)
    requires Q.Exclusive(q.k, q.clock) && Q.Known(q) && H.HeldOnce(q) && Backed(q, w, j)
    requires !(a.Crash? && a.w == w) && !(a.PullJob? && a.w == w)
    ensures Backed(Q.Step(ttl, q, a), w, j)
  {
    if Retired(q, j) {
      RetiredStep(ttl, q, a, j);
    } else if a.Finish? && a.w == w {
      FinishedIsRetired(ttl, q, a);
    }
  }

  lemma FinishedIsRetired(ttl: real, q: Q.State, a: Q.Action)
    requires Q.Exclusive(q.k, q.clock) && Q.Known(q) && H.HeldOnce(q) && a.Finish? && a.w in q.running
    ensures Retired(Q.Step(ttl, q, a), q.running[a.w])
  {
  }

  lemma QueueKeepsInv(ttl: real, conv: K.Id -> string, s: State, qa: Q.Action)
    requires Inv(ttl, s) && H.HeldIsFresh(s.q)
    ensures Inv(ttl, Step(ttl, conv, s, Queue(qa)))
  {
    hide Q.Step;
    hide Q.Known;
    hide Q.Exclusive;
    hide Q.Timed;
    hide Q.Conserved;
    hide Q.Faithful;
    hide H.HeldOnce;
    hide H.HeldIsFresh;
    hide Backed;
    hide Ms;
    var s' := Step(ttl, conv, s, Queue(qa));
    if s' != s {
      assert Q.Exclusive(s.q.k, s.q.clock) && Q.Known(s.q);
      Q.InvStep(ttl, s.q, qa);
      H.HeldOnceStep(ttl, s.q, qa);
      ClockAdvances(ttl, s.q, qa);
      forall w | w in s'.leases ensures Backed(s'.q, w, s'.leases[w].job) && Protected(s', w) {
        assert Protected(s, w) && Backed(s.q, w, s.leases[w].job);
        BackedStep(ttl, s.q, qa, w, s.leases[w].job);
      }
    }
  }

  lemma ClockAdvances(ttl: real, q: Q.State, a: Q.Action)
    ensures Ms(q.clock) <= Ms(Q.Step(ttl, q, a).clock)
  {
    assert q.clock <= Q.Step(ttl, q, a).clock;
    hide Q.Step;
  }

  /** A worker without a lease holds a job that no lease is for. */
  lemma JobIsNew(s: State, w: Q.Worker, v: Q.Worker)
    requires H.HeldOnce(s.q) && AllBacked(s) && w in s.q.running && w !in s.leases && v in s.leases
    ensures s.leases[v].job != s.q.running[w]
  {
    assert Backed(s.q, v, s.leases[v].job);
  }

  lemma AcquireKeepsInv(ttl: real, conv: K.Id -> string, s: State, w: Q.Worker, lockTtl: int)
    requires Inv(ttl, s)
    ensures Inv(ttl, Step(ttl, conv, s, Acquire(w, lockTtl)))
  {
    hide Q.Inv;
    hide H.HeldOnce;
    hide Retired;
    hide Ms;
    var s' := Step(ttl, conv, s, Acquire(w, lockTtl));
    if s' != s {
      forall v | v in s.leases ensures s.leases[v].job != s.q.running[w] {
        JobIsNew(s, w, v);
      }
      forall v | v in s'.leases ensures Protected(s', v) && Backed(s'.q, v, s'.leases[v].job) {
        if v != w {
          assert Protected(s, v) && Backed(s.q, v, s.leases[v].job);
        }
      }
    }
  }

  lemma ReleaseKeepsInv(ttl: real, conv: K.Id -> string, s: State, w: Q.Worker)
    requires Inv(ttl, s)
    ensures Inv(ttl, Step(ttl, conv, s, Release(w)))
  {
    hide Q.Inv;
    hide H.HeldOnce;
    hide Backed;
    hide Ms;
    var s' := Step(ttl, conv, s, Release(w));
    forall v | v in s'.leases ensures Protected(s', v) && Backed(s'.q, v, s'.leases[v].job) {
      assert Protected(s, v) && Backed(s.q, v, s.leases[v].job);
    }
  }

  lemma UpdateKeepsInv(ttl: real, conv: K.Id -> string, s: State, w: Q.Worker, f: L.Field)
    requires Inv(ttl, s)
    ensures Inv(ttl, Step(ttl, conv, s, Update(w, f)))
  {
    hide Q.Inv;
    hide H.HeldOnce;
    hide Backed;
    hide Ms;
    hide L.UpdateField;
    var s' := Step(ttl, conv, s, Update(w, f));
    if w in s.leases {
      L.UpdateKeepsOwner(s.store, s.leases[w].key, Now(s), f);
      forall v | v in s'.leases ensures Protected(s', v) && Backed(s'.q, v, s'.leases[v].job) {
        assert Protected(s, v) && Backed(s.q, v, s.leases[v].job);
      }
    }
  }

  lemma InitInv(ttl: real, t0: real)
    ensures Inv(ttl, Init(t0))
  {
    Q.RunInv(ttl, t0, []);
  }

  lemma {:induction false} RunInv(ttl: real, conv: K.Id -> string, t0: real, acts: seq<Action>)
    requires AlwaysFresh(ttl, conv, t0, acts)
    ensures Inv(ttl, Run(ttl, conv, t0, acts))
  {
    hide Inv;
    hide Step;
    hide H.HeldIsFresh;
    if acts == [] {
      InitInv(ttl, t0);
    } else {
      var front, a := acts[..|acts| - 1], acts[|acts| - 1];
      RunInv(ttl, conv, t0, front);
      var s := Run(ttl, conv, t0, front);
      match a
      case Queue(qa) => QueueKeepsInv(ttl, conv, s, qa);
      case Acquire(w, lockTtl) => AcquireKeepsInv(ttl, conv, s, w, lockTtl);
      case Release(w) => ReleaseKeepsInv(ttl, conv, s, w);
      case Update(w, f) => UpdateKeepsInv(ttl, conv, s, w, f);
    }
  }

  // ---------------------------------------------------------------- main results

  /** In every run of the queue and the locks in which held jobs keep live data, with any crashes,
      scans, expiries and updates, at most one worker per conversation is inside its lease. */
  lemma OneWorkerPerConversation(ttl: real, conv: K.Id -> string, t0: real, acts: seq<Action>, v: Q.Worker, w: Q.Worker)
    requires AlwaysFresh(ttl, conv, t0, acts)
    requires InLease(Run(ttl, conv, t0, acts), v) && InLease(Run(ttl, conv, t0, acts), w)
    requires Run(ttl, conv, t0, acts).leases[v].key == Run(ttl, conv, t0, acts).leases[w].key
    ensures v == w
  {
    hide Run;
    RunInv(ttl, conv, t0, acts);
    var s := Run(ttl, conv, t0, acts);
    hide Q.Inv;
    assert Protected(s, v) && Protected(s, w);
  }

  // ---------------------------------------------------------------- why held jobs must stay live

  lemma RunSnoc(ttl: real, conv: K.Id -> string, t0: real, acts: seq<Action>, a: Action)
    ensures Run(ttl, conv, t0, acts + [a]) == Step(ttl, conv, Run(ttl, conv, t0, acts), a)
  {
    assert (acts + [a])[..|acts|] == acts;
  }

  /** Worker 0 holds and has locked "j" at time zero. */
  predicate Locked(ttl: real, lockTtl: int, key: string, s: State) {
    && s.q.clock == 0.0 && s.q.k.pending == [] && s.q.k.processing == {"j"} && s.q.created.Keys == {"j"}
    && "j" in s.q.k.data && s.q.k.data["j"].expires == ttl
    && "j" in s.q.k.backup && s.q.k.backup["j"].expires == 2.0 * ttl
    && s.q.running == map[0 := "j"] && s.q.scans == map[]
    && s.leases == map[0 := Lease(key, "j", 1000 * lockTtl)]
    && key in s.store && s.store[key].info.jobId == "j" && s.store[key].deadline == 1000 * lockTtl
  }

  lemma LockFirst(ttl: real, lockTtl: int, conv: K.Id -> string) returns (acts: seq<Action>)
    requires ttl > 0.0 && lockTtl >= 1
    ensures Locked(ttl, lockTtl, conv("j"), Run(ttl, conv, 0.0, acts))
  {
    hide Run;
    RunNothing(ttl, conv);
    var nothing: seq<Action> := [];
    RunSnoc(ttl, conv, 0.0, nothing, Queue(Q.CreateJob("j", map[])));
    acts := nothing + [Queue(Q.CreateJob("j", map[]))];
    RunSnoc(ttl, conv, 0.0, acts, Queue(Q.PullJob(0)));
    acts := acts + [Queue(Q.PullJob(0))];
    RunSnoc(ttl, conv, 0.0, acts, Acquire(0, lockTtl));
    acts := acts + [Acquire(0, lockTtl)];
  }

  lemma RunNothing(ttl: real, conv: K.Id -> string)
    ensures Run(ttl, conv, 0.0, []) == Init(0.0)
  {
  }

  /** Worker 1 holds "j" too, and worker 0's lock has expired. */
  predicate HeldTwice(ttl: real, lockTtl: int, key: string, s: State) {
    && s.q.k.pending == [] && s.q.created.Keys == {"j"} && s.q.running == map[0 := "j", 1 := "j"]
    && s.leases == map[0 := Lease(key, "j", 1000 * lockTtl)]
    && key in s.store && s.store[key].deadline == 1000 * lockTtl <= Now(s)
  }

  lemma PullAgain(ttl: real, lockTtl: int, conv: K.Id -> string, before: seq<Action>) returns (acts: seq<Action>)
    requires ttl > 0.0 && Locked(ttl, lockTtl, conv("j"), Run(ttl, conv, 0.0, before))
    ensures HeldTwice(ttl, lockTtl, conv("j"), Run(ttl, conv, 0.0, acts))
  {
    hide Run;
    RunSnoc(ttl, conv, 0.0, before, Queue(Q.Tick(ttl)));
    acts := before + [Queue(Q.Tick(ttl))];
    RunSnoc(ttl, conv, 0.0, acts, Queue(Q.BeginScan(3)));
    acts := acts + [Queue(Q.BeginScan(3))];
    assert Run(ttl, conv, 0.0, acts).q.scans[3].todo == {"j"};
    RunSnoc(ttl, conv, 0.0, acts, Queue(Q.ScanOne(3, "j")));
    acts := acts + [Queue(Q.ScanOne(3, "j"))];
    assert Run(ttl, conv, 0.0, acts).q.k.pending == ["j"];
    RunSnoc(ttl, conv, 0.0, acts, Queue(Q.PullJob(1)));
    acts := acts + [Queue(Q.PullJob(1))];
    var late := if ttl < lockTtl as real then lockTtl as real else ttl;
    RunSnoc(ttl, conv, 0.0, acts, Queue(Q.Tick(late)));
    acts := acts + [Queue(Q.Tick(late))];
    LateEnough(lockTtl, late);
  }

  lemma LateEnough(lockTtl: int, late: real)
    requires lockTtl as real <= late
    ensures 1000 * lockTtl <= Ms(late)
  {
    assert (1000 * lockTtl) as real <= late * 1000.0;
  }

  /** Worker 1 is inside its lease, and its lock is gone. */
  predicate LockStolen(key: string, s: State) {
    && s.q.k.pending == [] && s.q.created.Keys == {"j"} && 2 !in s.q.running
    && s.leases.Keys == {1} && InLease(s, 1) && s.leases[1].key == key && key !in s.store
  }

  lemma StealLock(ttl: real, lockTtl: int, conv: K.Id -> string, before: seq<Action>) returns (acts: seq<Action>)
    requires lockTtl >= 1 && HeldTwice(ttl, lockTtl, conv("j"), Run(ttl, conv, 0.0, before))
    ensures LockStolen(conv("j"), Run(ttl, conv, 0.0, acts))
  {
    hide Run;
    hide Ms;
    RunSnoc(ttl, conv, 0.0, before, Acquire(1, lockTtl));
    acts := before + [Acquire(1, lockTtl)];
    RunSnoc(ttl, conv, 0.0, acts, Release(0));
    acts := acts + [Release(0)];
  }

  lemma LockOther(ttl: real, lockTtl: int, conv: K.Id -> string, before: seq<Action>) returns (acts: seq<Action>)
    requires ttl > 0.0 && lockTtl >= 1 && conv("i") == conv("j") && LockStolen(conv("j"), Run(ttl, conv, 0.0, before))
    ensures var s := Run(ttl, conv, 0.0, acts);
            InLease(s, 1) && InLease(s, 2) && s.leases[1].key == s.leases[2].key == conv("j")
  {
    hide Run;
    hide Ms;
    RunSnoc(ttl, conv, 0.0, before, Queue(Q.CreateJob("i", map[])));
    acts := before + [Queue(Q.CreateJob("i", map[]))];
    assert Run(ttl, conv, 0.0, acts).q.k.pending == ["i"];
    RunSnoc(ttl, conv, 0.0, acts, Queue(Q.PullJob(2)));
    acts := acts + [Queue(Q.PullJob(2))];
    RunSnoc(ttl, conv, 0.0, acts, Acquire(2, lockTtl));
    acts := acts + [Acquire(2, lockTtl)];
  }

  /** Without that condition exclusion fails, for every job TTL and lock TTL: a slow job is pulled
      again, its second worker locks the worktree under the same id, the first worker's release
      deletes that lock, and a third worker locks the worktree for another job. */
  lemma SlowJobBreaksExclusion(ttl: real, lockTtl: int, conv: K.Id -> string) returns (acts: seq<Action>)
    requires ttl > 0.0 && lockTtl >= 1 && conv("i") == conv("j")
    ensures var s := Run(ttl, conv, 0.0, acts);
            InLease(s, 1) && InLease(s, 2) && s.leases[1].key == s.leases[2].key == conv("j")
  {
    hide *;
    acts := LockFirst(ttl, lockTtl, conv);
    acts := PullAgain(ttl, lockTtl, conv, acts);
    acts := StealLock(ttl, lockTtl, conv, acts);
    acts := LockOther(ttl, lockTtl, conv, acts);
  }
}
