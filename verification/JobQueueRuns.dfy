/** Every run of the job queue: any number of workers create, pull, finish, crash and scan, in any
    order, while the clock ticks. A scan is a snapshot of the processing set followed by one step
    per job, so scans of different workers overlap and jobs move while they are being scanned. */
module JobQueueRuns {
  import opened JobQueue
  import opened Wrappers

  type Worker = nat

  /** A reclaim scan in progress: when it took its snapshot, and the jobs it has yet to visit. */
  datatype Scan = Scan(start: real, todo: set<Id>)

  /** `running` is the job each live worker holds. `lastDone` is the latest snapshot time of a
      finished scan. The last four fields are history: what was created, which jobs a scan has
      re-queued, which were completed, and which a scan removed for lack of a backup. */
  datatype State = State(
    clock: real,
    k: Keys,
    running: map<Worker, Id>,
    scans: map<Worker, Scan>,
    lastDone: real,
    created: map<Id, Payload>,
    requeued: set<Id>,
    completed: set<Id>,
    dropped: set<Id>)

  datatype Action =
    | Tick(to: real)
    | CreateJob(j: Id, p: Payload)
    | PullJob(w: Worker)
    | Finish(w: Worker, result: Payload, status: string)
    | Crash(w: Worker)
    | BeginScan(w: Worker)
    | ScanOne(w: Worker, j: Id)
    | EndScan(w: Worker)

  function Init(t0: real): State {
    State(t0, EMPTY, map[], map[], t0, map[], {}, {}, {})
  }

  predicate Enabled(s: State, a: Action) {
    match a
    case Tick(to) => s.clock <= to
    case CreateJob(j, _) => j !in s.created
    case PullJob(w) => w !in s.running
    case Finish(w, _, _) => w in s.running
    case Crash(_) => true
    case BeginScan(w) => w !in s.scans
    case ScanOne(w, j) => w in s.scans && j in s.scans[w].todo
    case EndScan(w) => w in s.scans && s.scans[w].todo == {}
  }

  /** One action; an action that is not enabled changes nothing. */
  function Step(ttl: real, s: State, a: Action): State {
    if !Enabled(s, a) then s else
    match a
    case Tick(to) => s.(clock := to)
    case CreateJob(j, p) => s.(k := Create(s.k, ttl, s.clock, j, p), created := s.created[j := p])
    case PullJob(w) =>
      var (k, r) := Pull(s.k, ttl, s.clock);
      if r.None? then s.(k := k) else s.(k := k, running := s.running[w := r.value.0])
    case Finish(w, result, status) =>
      var j := s.running[w];
      s.(k := Complete(s.k, ttl, s.clock, j, result, status),
         running := s.running - {w}, completed := s.completed + {j})
    case Crash(w) => s.(running := s.running - {w}, scans := s.scans - {w})
    case BeginScan(w) => s.(scans := s.scans[w := Scan(s.clock, s.k.processing)])
    case ScanOne(w, j) =>
      var (k, moved) := Visit(s.k, ttl, s.clock, j);
      s.(k := k,
         scans := s.scans[w := s.scans[w].(todo := s.scans[w].todo - {j})],
         requeued := if moved then s.requeued + {j} else s.requeued,
         dropped := if !moved && j in s.k.processing && j !in k.processing then s.dropped + {j} else s.dropped)
    case EndScan(w) =>
      s.(scans := s.scans - {w},
         lastDone := if s.lastDone < s.scans[w].start then s.scans[w].start else s.lastDone)
  }

  function Run(ttl: real, t0: real, acts: seq<Action>): State {
    if acts == [] then Init(t0) else Step(ttl, Run(ttl, t0, acts[..|acts| - 1]), acts[|acts| - 1])
  }

  // ---------------------------------------------------------------- invariants of every run

  predicate NoDuplicates(p: seq<Id>) {
    forall i, j :: 0 <= i < j < |p| ==> p[i] != p[j]
  }

  /** Only ids that were created appear anywhere. */
  predicate Known(s: State) {
    && (forall j :: j in s.k.pending ==> j in s.created)
    && s.k.processing <= s.created.Keys
    && s.k.data.Keys <= s.created.Keys
    && s.k.backup.Keys <= s.created.Keys
    && s.requeued <= s.created.Keys
    && (forall w :: w in s.running ==> s.running[w] in s.created)
  }

  /** A job is queued at most once and never both queued and in progress; only a job in progress
      has a live backup, which is why a scan working from an old snapshot cannot queue it twice. */
  predicate Exclusive(k: Keys, now: real) {
    && NoDuplicates(k.pending)
    && (forall j :: j in k.pending ==> j !in k.processing)
    && (forall j :: j in k.backup && Live(k.backup, j, now) ==> j in k.processing)
  }

  predicate Accounted(s: State, j: Id) {
    j in s.k.pending || j in s.k.processing || j in s.completed || j in s.k.dead || j in s.dropped
  }

  predicate Conserved(s: State) {
    forall j :: j in s.created ==> Accounted(s, j)
  }

  /** The entries of m are the created payloads, stripped for the jobs that were re-queued. */
  predicate Holds(m: map<Id, Stored<Payload>>, created: map<Id, Payload>, requeued: set<Id>) {
    forall j :: j in m ==>
      j in created && m[j].value == if j in requeued then Strip(created[j]) else created[j]
  }

  predicate Faithful(s: State) {
    Holds(s.k.data, s.created, s.requeued) && Holds(s.k.backup, s.created, s.requeued)
  }

  /** The TTL bookkeeping: a job in progress has data that expires after `since`, and a backup that
      outlives the data by a whole TTL. */
  predicate Timed(ttl: real, k: Keys, now: real, since: real) {
    && since <= now
    && (forall j :: j in k.data ==> k.data[j].expires <= now + ttl)
    && k.processing <= k.data.Keys && k.processing <= k.backup.Keys
    && (forall j :: j in k.processing ==>
          since < k.data[j].expires && k.data[j].expires + ttl <= k.backup[j].expires)
  }

  /** A scan that took its snapshot after a job's data expired still has that job to visit. */
  predicate ScanCovers(k: Keys, now: real, scan: Scan)
    requires k.processing <= k.data.Keys
  {
    && scan.start <= now
    && (forall j :: j in k.processing && k.data[j].expires <= scan.start ==> j in scan.todo)
  }

  predicate Inv(ttl: real, s: State) {
    && Known(s) && Conserved(s) && Faithful(s)
    && Exclusive(s.k, s.clock) && Timed(ttl, s.k, s.clock, s.lastDone)
    && (forall w :: w in s.scans ==> ScanCovers(s.k, s.clock, s.scans[w]))
  }

  lemma KnownStep(ttl: real, s: State, a: Action)
    requires Known(s)
    ensures Known(Step(ttl, s, a))
  {
    match a
    case PullJob(w) => KnownPull(ttl, s, w);
    case ScanOne(w, j) => KnownScan(ttl, s, w, j);
    case _ =>
  }

  lemma KnownPull(ttl: real, s: State, w: Worker)
    requires Known(s)
    ensures Known(Step(ttl, s, PullJob(w)))
  {
  }

  lemma KnownScan(ttl: real, s: State, w: Worker, j: Id)
    requires Known(s)
    ensures Known(Step(ttl, s, ScanOne(w, j)))
  {
  }

  lemma ConservedPull(ttl: real, s: State, w: Worker)
    requires Conserved(s)
    ensures Conserved(Step(ttl, s, PullJob(w)))
  {
  }

  lemma ConservedScan(ttl: real, s: State, w: Worker, j: Id)
    requires Conserved(s)
    ensures Conserved(Step(ttl, s, ScanOne(w, j)))
  {
  }

  lemma ConservedStep(ttl: real, s: State, a: Action)
    requires Conserved(s)
    ensures Conserved(Step(ttl, s, a))
  {
    match a
    case PullJob(w) => ConservedPull(ttl, s, w);
    case ScanOne(w, j) => ConservedScan(ttl, s, w, j);
    case _ =>
  }

  lemma ExclusiveCreate(ttl: real, k: Keys, now: real, j: Id, p: Payload)
    requires Exclusive(k, now) && j !in k.pending && j !in k.processing
    ensures Exclusive(Create(k, ttl, now, j, p), now)
  {
  }

  lemma ExclusivePull(ttl: real, k: Keys, now: real)
    requires Exclusive(k, now)
    ensures Exclusive(Pull(k, ttl, now).0, now)
  {
  }

  lemma ExclusiveVisit(ttl: real, k: Keys, now: real, j: Id)
    requires Exclusive(k, now)
    ensures Exclusive(Visit(k, ttl, now, j).0, now)
  {
  }

  lemma ExclusiveComplete(ttl: real, k: Keys, now: real, j: Id, result: Payload, status: string)
    requires Exclusive(k, now)
    ensures Exclusive(Complete(k, ttl, now, j, result, status), now)
  {
  }

  lemma ExclusiveStep(ttl: real, s: State, a: Action)
    requires Known(s) && Exclusive(s.k, s.clock)
    ensures Exclusive(Step(ttl, s, a).k, Step(ttl, s, a).clock)
  {
    if Enabled(s, a) {
      match a
      case CreateJob(j, p) => ExclusiveCreate(ttl, s.k, s.clock, j, p);
      case PullJob(w) => ExclusivePull(ttl, s.k, s.clock);
      case Finish(w, result, status) => ExclusiveComplete(ttl, s.k, s.clock, s.running[w], result, status);
      case ScanOne(w, j) => ExclusiveVisit(ttl, s.k, s.clock, j);
      case _ =>
    }
  }

  lemma StripTwice(p: Payload)
    ensures Strip(Strip(p)) == Strip(p)
  {
  }

  lemma HoldsCreated(m: map<Id, Stored<Payload>>, created: map<Id, Payload>, requeued: set<Id>, j: Id, p: Payload)
    requires Holds(m, created, requeued) && j !in created
    ensures Holds(m, created[j := p], requeued)
  {
  }

  lemma HoldsPut(m: map<Id, Stored<Payload>>, created: map<Id, Payload>, requeued: set<Id>, j: Id, e: Stored<Payload>)
    requires Holds(m, created, requeued) && j in created
    requires e.value == if j in requeued then Strip(created[j]) else created[j]
    ensures Holds(m[j := e], created, requeued)
  {
  }

  lemma HoldsTake(m: map<Id, Stored<Payload>>, created: map<Id, Payload>, requeued: set<Id>, j: Id)
    requires Holds(m, created, requeued)
    ensures Holds(m - {j}, created, requeued) && Holds(m - {j}, created, requeued + {j})
  {
  }

  lemma FaithfulScan(ttl: real, s: State, w: Worker, j: Id)
    requires Faithful(s) && Enabled(s, ScanOne(w, j)) && Visit(s.k, ttl, s.clock, j).1
    ensures Faithful(Step(ttl, s, ScanOne(w, j)))
  {
    var p := s.k.backup[j].value;
    assert j in s.created && Strip(p) == Strip(s.created[j]) by {
      StripTwice(s.created[j]);
    }
    hide Strip;
    hide Holds;
    HoldsTake(s.k.backup, s.created, s.requeued, j);
    HoldsTake(s.k.data, s.created, s.requeued, j);
    HoldsPut(s.k.data - {j}, s.created, s.requeued + {j}, j, Stored(Strip(p), s.clock + ttl));
    assert (s.k.data - {j})[j := Stored(Strip(p), s.clock + ttl)] == s.k.data[j := Stored(Strip(p), s.clock + ttl)];
  }

  lemma FaithfulStep(ttl: real, s: State, a: Action)
    requires Known(s) && Faithful(s)
    ensures Faithful(Step(ttl, s, a))
  {
    if Enabled(s, a) {
      match a
      case CreateJob(j, p) =>
        HoldsCreated(s.k.data, s.created, s.requeued, j, p);
        HoldsCreated(s.k.backup, s.created, s.requeued, j, p);
        HoldsPut(s.k.data, s.created[j := p], s.requeued, j, Stored(p, s.clock + ttl));
      case PullJob(w) =>
        if Pull(s.k, ttl, s.clock).1.Some? {
          var j := s.k.pending[0];
          HoldsPut(s.k.backup, s.created, s.requeued, j, Stored(s.k.data[j].value, s.clock + 2.0 * ttl));
        }
      case Finish(w, _, _) => HoldsTake(s.k.backup, s.created, s.requeued, s.running[w]);
      case ScanOne(w, j) => if Visit(s.k, ttl, s.clock, j).1 { FaithfulScan(ttl, s, w, j); }
      case _ =>
    }
  }

  lemma TimedCreate(ttl: real, k: Keys, now: real, since: real, j: Id, p: Payload)
    requires Timed(ttl, k, now, since) && j !in k.processing
    ensures Timed(ttl, Create(k, ttl, now, j, p), now, since)
  {
  }

  lemma TimedPull(ttl: real, k: Keys, now: real, since: real)
    requires Timed(ttl, k, now, since) && Exclusive(k, now)
    ensures Timed(ttl, Pull(k, ttl, now).0, now, since)
  {
  }

  lemma TimedVisit(ttl: real, k: Keys, now: real, since: real, j: Id)
    requires Timed(ttl, k, now, since)
    ensures Timed(ttl, Visit(k, ttl, now, j).0, now, since)
  {
  }

  lemma TimedComplete(ttl: real, k: Keys, now: real, since: real, j: Id, result: Payload, status: string)
    requires Timed(ttl, k, now, since)
    ensures Timed(ttl, Complete(k, ttl, now, j, result, status), now, since)
  {
  }

  /** Operations on the keys only take jobs out of the processing set or add fresh ones to it. */
  lemma CoverCreate(ttl: real, k: Keys, now: real, j: Id, p: Payload, scan: Scan)
    requires k.processing <= k.data.Keys && j !in k.processing && ScanCovers(k, now, scan)
    ensures ScanCovers(Create(k, ttl, now, j, p), now, scan)
  {
  }

  lemma CoverPull(ttl: real, k: Keys, now: real, scan: Scan)
    requires k.processing <= k.data.Keys && ScanCovers(k, now, scan)
    ensures ScanCovers(Pull(k, ttl, now).0, now, scan)
  {
  }

  lemma CoverVisit(ttl: real, k: Keys, now: real, j: Id, scan: Scan)
    requires k.processing <= k.data.Keys && ScanCovers(k, now, scan)
    ensures ScanCovers(Visit(k, ttl, now, j).0, now, scan)
    ensures ScanCovers(Visit(k, ttl, now, j).0, now, scan.(todo := scan.todo - {j}))
  {
  }

  lemma TimedStep(ttl: real, s: State, a: Action)
    requires Inv(ttl, s)
    ensures Timed(ttl, Step(ttl, s, a).k, Step(ttl, s, a).clock, Step(ttl, s, a).lastDone)
  {
    if Enabled(s, a) {
      match a
      case CreateJob(j, p) => TimedCreate(ttl, s.k, s.clock, s.lastDone, j, p);
      case PullJob(w) => TimedPull(ttl, s.k, s.clock, s.lastDone);
      case Finish(w, result, status) => TimedComplete(ttl, s.k, s.clock, s.lastDone, s.running[w], result, status);
      case ScanOne(w, j) => TimedVisit(ttl, s.k, s.clock, s.lastDone, j);
      case EndScan(w) => assert ScanCovers(s.k, s.clock, s.scans[w]);
      case _ =>
    }
  }

  lemma CoverStep(ttl: real, s: State, a: Action, w: Worker)
    requires Inv(ttl, s) && w in Step(ttl, s, a).scans && Timed(ttl, Step(ttl, s, a).k, Step(ttl, s, a).clock, Step(ttl, s, a).lastDone)
    ensures ScanCovers(Step(ttl, s, a).k, Step(ttl, s, a).clock, Step(ttl, s, a).scans[w])
  {
    if Enabled(s, a) {
      match a
      case CreateJob(j, p) => CoverCreate(ttl, s.k, s.clock, j, p, s.scans[w]);
      case PullJob(_) => CoverPull(ttl, s.k, s.clock, s.scans[w]);
      case ScanOne(_, j) => CoverVisit(ttl, s.k, s.clock, j, s.scans[w]);
      case _ =>
    }
  }

  lemma InvStep(ttl: real, s: State, a: Action)
    requires Inv(ttl, s)
    ensures Inv(ttl, Step(ttl, s, a))
  {
    KnownStep(ttl, s, a);
    ConservedStep(ttl, s, a);
    FaithfulStep(ttl, s, a);
    ExclusiveStep(ttl, s, a);
    TimedStep(ttl, s, a);
    var s' := Step(ttl, s, a);
    forall w | w in s'.scans ensures ScanCovers(s'.k, s'.clock, s'.scans[w]) {
      CoverStep(ttl, s, a, w);
    }
    hide Step;
    hide Known;
    hide Conserved;
    hide Faithful;
    hide Exclusive;
  }

  lemma {:induction false} RunInv(ttl: real, t0: real, acts: seq<Action>)
    ensures Inv(ttl, Run(ttl, t0, acts))
  {
    if acts != [] {
      RunInv(ttl, t0, acts[..|acts| - 1]);
      InvStep(ttl, Run(ttl, t0, acts[..|acts| - 1]), acts[|acts| - 1]);
    }
  }

  // ---------------------------------------------------------------- main results, untimed

  /** In every reachable state the pending list has no duplicates and no job in progress, and every
      created job is pending, in progress, completed, dead-lettered, or was dropped by a scan that
      found neither data nor backup. */
  lemma NothingIsLostOrDoubled(ttl: real, t0: real, acts: seq<Action>)
    ensures var s := Run(ttl, t0, acts);
      && NoDuplicates(s.k.pending)
      && (forall j :: j in s.k.pending ==> j !in s.k.processing)
      && (forall j :: j in s.created ==> Accounted(s, j))
  {
    RunInv(ttl, t0, acts);
  }

  /** Every pull, in every reachable state, hands out the payload the job was created with, except
      that a job some scan has re-queued comes without its GitHub token. */
  lemma PullReturnsCreatedPayload(ttl: real, t0: real, acts: seq<Action>)
    ensures var s := Run(ttl, t0, acts);
      var r := Pull(s.k, ttl, s.clock).1;
      r.Some? ==>
        && r.value.0 in s.created
        && (r.value.0 !in s.requeued ==> r.value.1 == s.created[r.value.0])
        && (r.value.0 in s.requeued ==>
              && "github_token" !in r.value.1
              && (forall f :: f in s.created[r.value.0] && f != "github_token" ==> f in r.value.1 && r.value.1[f] == s.created[r.value.0][f])
              && (forall f :: f in r.value.1 ==> f in s.created[r.value.0]))
  {
    RunInv(ttl, t0, acts);
    assert Faithful(Run(ttl, t0, acts));
    hide Run;
  }

  // ---------------------------------------------------------------- main results, timed

  /** At every moment of the run, the latest finished scan took its snapshot less than `lag` ago:
      scans are less than that apart, counting the time they take. */
  predicate KeepsUp(ttl: real, lag: real, t0: real, acts: seq<Action>) {
    && Run(ttl, t0, acts).clock < Run(ttl, t0, acts).lastDone + lag
    && (acts != [] ==> KeepsUp(ttl, lag, t0, acts[..|acts| - 1]))
  }

  /** With a lag of at most one TTL every job in progress has a live backup at every moment. */
  lemma BackupOutlivesScans(ttl: real, lag: real, t0: real, acts: seq<Action>, j: Id)
    requires lag <= ttl && KeepsUp(ttl, lag, t0, acts) && j in Run(ttl, t0, acts).k.processing
    ensures Live(Run(ttl, t0, acts).k.backup, j, Run(ttl, t0, acts).clock)
  {
    RunInv(ttl, t0, acts);
  }

  /** So no job is ever removed from the processing set for lack of a backup. */
  lemma {:induction false} NoJobIsDropped(ttl: real, lag: real, t0: real, acts: seq<Action>)
    requires lag <= ttl && KeepsUp(ttl, lag, t0, acts)
    ensures Run(ttl, t0, acts).dropped == {}
  {
    if acts != [] {
      var front, a := acts[..|acts| - 1], acts[|acts| - 1];
      NoJobIsDropped(ttl, lag, t0, front);
      if a.ScanOne? && a.j in Run(ttl, t0, front).k.processing {
        BackupOutlivesScans(ttl, lag, t0, front, a.j);
      }
    }
  }

  /** The state before action i. */
  function Before(ttl: real, t0: real, acts: seq<Action>, i: nat): State
    requires i <= |acts|
  {
    Run(ttl, t0, acts[..i])
  }

  /** Action i is some worker completing job j. */
  predicate FinishedAt(ttl: real, t0: real, acts: seq<Action>, i: nat, j: Id)
    requires i < |acts|
  {
    var s := Before(ttl, t0, acts, i);
    acts[i].Finish? && acts[i].w in s.running && s.running[acts[i].w] == j
  }

  /** Action i is a scan moving job j back to the pending list, before the deadline. */
  predicate RequeuedAt(ttl: real, t0: real, acts: seq<Action>, i: nat, j: Id, deadline: real)
    requires i < |acts|
  {
    var s, s' := Before(ttl, t0, acts, i), Before(ttl, t0, acts, i + 1);
    && acts[i].ScanOne? && acts[i].j == j && s.clock < deadline
    && j in s.k.processing && j in s'.k.pending && j !in s'.k.processing
  }

  /** A job in progress with a live backup stays as it is, is finished, or is re-queued. */
  lemma LeaveStep(ttl: real, s: State, a: Action, j: Id)
    requires Exclusive(s.k, s.clock) && j in s.k.processing && Live(s.k.backup, j, s.clock)
    ensures var s' := Step(ttl, s, a);
      || (j in s'.k.processing && j in s'.k.backup && s'.k.backup[j] == s.k.backup[j])
      || (a.Finish? && a.w in s.running && s.running[a.w] == j)
      || (a.ScanOne? && a.j == j && j in s'.k.pending && j !in s'.k.processing)
  {
    hide Exclusive;
    hide Pull;
    hide Visit;
    if Enabled(s, a) {
      match a
      case PullJob(_) => LeavePull(ttl, s.k, s.clock, j);
      case ScanOne(_, i) => LeaveVisit(ttl, s.k, s.clock, i, j);
      case _ =>
    }
  }

  lemma LeavePull(ttl: real, k: Keys, now: real, j: Id)
    requires Exclusive(k, now) && j in k.processing && j in k.backup
    ensures var k' := Pull(k, ttl, now).0;
      j in k'.processing && j in k'.backup && k'.backup[j] == k.backup[j]
  {
    if k.pending != [] {
      assert k.pending[0] in k.pending;
    }
  }

  lemma LeaveVisit(ttl: real, k: Keys, now: real, i: Id, j: Id)
    requires j in k.processing && Live(k.backup, j, now)
    ensures var k' := Visit(k, ttl, now, i).0;
      || (j in k'.processing && j in k'.backup && k'.backup[j] == k.backup[j])
      || (i == j && j in k'.pending && j !in k'.processing)
  {
    hide Strip;
  }

  lemma {:induction false} FollowJob(ttl: real, lag: real, t0: real, acts: seq<Action>, n: nat, j: Id, e: Stored<Payload>)
    requires lag <= ttl && KeepsUp(ttl, lag, t0, acts) && n <= |acts|
    requires j in Before(ttl, t0, acts, n).k.processing
    requires j in Before(ttl, t0, acts, n).k.backup && Before(ttl, t0, acts, n).k.backup[j] == e
    ensures var s := Run(ttl, t0, acts);
      || (j in s.k.processing && j in s.k.backup && s.k.backup[j] == e)
      || (exists i :: n <= i < |acts| && FinishedAt(ttl, t0, acts, i, j))
      || (exists i :: n <= i < |acts| && RequeuedAt(ttl, t0, acts, i, j, e.expires))
  {
    if n == |acts| {
      assert acts[..n] == acts;
    } else {
      hide Run;
      hide Step;
      var m := |acts| - 1;
      var front := acts[..m];
      assert forall i :: 0 <= i <= m ==> front[..i] == acts[..i];
      assert acts[..|acts|] == acts;
      FollowJob(ttl, lag, t0, front, n, j, e);
      if i :| n <= i < m && FinishedAt(ttl, t0, front, i, j) {
        assert FinishedAt(ttl, t0, acts, i, j);
      } else if i :| n <= i < m && RequeuedAt(ttl, t0, front, i, j, e.expires) {
        assert RequeuedAt(ttl, t0, acts, i, j, e.expires);
      } else {
        LastStep(ttl, lag, t0, acts, j, e);
      }
    }
  }

  lemma LastStep(ttl: real, lag: real, t0: real, acts: seq<Action>, j: Id, e: Stored<Payload>)
    requires lag <= ttl && acts != [] && KeepsUp(ttl, lag, t0, acts[..|acts| - 1])
    requires var s := Run(ttl, t0, acts[..|acts| - 1]); j in s.k.processing && j in s.k.backup && s.k.backup[j] == e
    ensures var s := Run(ttl, t0, acts);
      || (j in s.k.processing && j in s.k.backup && s.k.backup[j] == e)
      || FinishedAt(ttl, t0, acts, |acts| - 1, j)
      || RequeuedAt(ttl, t0, acts, |acts| - 1, j, e.expires)
  {
    hide Step;
    var front := acts[..|acts| - 1];
    assert acts[..|acts| - 1 + 1] == acts;
    RunInv(ttl, t0, front);
    BackupOutlivesScans(ttl, lag, t0, front, j);
    LeaveStep(ttl, Run(ttl, t0, front), acts[|acts| - 1], j);
  }

  /** A crashed worker's job comes back. Say action n pulls job j at time p, no worker completes j
      afterwards, and the run goes on past p + 2 TTL with scans keeping up. Then some scan puts j
      back on the pending list before its backup expires at p + 2 TTL. */
  lemma AbandonedJobIsRequeued(ttl: real, lag: real, t0: real, acts: seq<Action>, n: nat, j: Id, deadline: real)
    requires lag <= ttl && KeepsUp(ttl, lag, t0, acts) && n < |acts| && acts[n].PullJob? && Enabled(Before(ttl, t0, acts, n), acts[n])
    requires var s := Before(ttl, t0, acts, n);
      var r := Pull(s.k, ttl, s.clock).1;
      r.Some? && r.value.0 == j && deadline == s.clock + 2.0 * ttl
    requires forall i :: n < i < |acts| ==> !FinishedAt(ttl, t0, acts, i, j)
    requires Run(ttl, t0, acts).clock >= deadline
    ensures exists i :: n < i < |acts| && RequeuedAt(ttl, t0, acts, i, j, deadline)
  {
    var s := Before(ttl, t0, acts, n);
    var s' := Before(ttl, t0, acts, n + 1);
    assert s' == Step(ttl, s, acts[n]) by {
      assert acts[..n + 1][..n] == acts[..n];
    }
    assert s'.k.backup[j].expires == deadline;
    hide Run;
    hide Step;
    FollowJob(ttl, lag, t0, acts, n + 1, j, s'.k.backup[j]);
    if j in Run(ttl, t0, acts).k.processing {
      BackupOutlivesScans(ttl, lag, t0, acts, j);
    }
  }

  // ---------------------------------------------------------------- what does not hold

  lemma {:induction false} RunSnoc(ttl: real, lag: real, t0: real, acts: seq<Action>, a: Action)
    ensures Run(ttl, t0, acts + [a]) == Step(ttl, Run(ttl, t0, acts), a)
    ensures KeepsUp(ttl, lag, t0, acts + [a]) <==>
      KeepsUp(ttl, lag, t0, acts) && Step(ttl, Run(ttl, t0, acts), a).clock < Step(ttl, Run(ttl, t0, acts), a).lastDone + lag
  {
    assert (acts + [a])[..|acts|] == acts;
  }

  /** A job "j" created and pulled by worker 0 at time zero. */
  predicate JustPulled(ttl: real, s: State) {
    && s.clock == 0.0 && s.lastDone == 0.0 && s.k.pending == [] && s.k.processing == {"j"}
    && "j" in s.k.data && s.k.data["j"].expires == ttl
    && "j" in s.k.backup && s.k.backup["j"].expires == 2.0 * ttl
    && s.running == map[0 := "j"] && s.scans == map[] && s.completed == {} && s.k.dead == []
  }

  lemma PullOnce(ttl: real, lag: real) returns (acts: seq<Action>)
    requires ttl > 0.0 && lag > 0.0
    ensures JustPulled(ttl, Run(ttl, 0.0, acts)) && KeepsUp(ttl, lag, 0.0, acts)
  {
    acts := [CreateJob("j", map[])];
    RunSnoc(ttl, lag, 0.0, [], acts[0]);
    assert [] + [acts[0]] == acts;
    RunSnoc(ttl, lag, 0.0, acts, PullJob(0));
    acts := acts + [PullJob(0)];
  }

  /** Worker 1 scans at time t, while the job's data is still live. */
  lemma ScanAt(ttl: real, lag: real, before: seq<Action>, t: real) returns (acts: seq<Action>)
    requires KeepsUp(ttl, lag, 0.0, before) && 0.0 < lag
    requires var s := Run(ttl, 0.0, before);
      JustPulled(ttl, s.(clock := 0.0, lastDone := 0.0)) && s.clock == s.lastDone <= t < ttl && t < s.lastDone + lag
    ensures KeepsUp(ttl, lag, 0.0, acts)
    ensures var s := Run(ttl, 0.0, acts);
      JustPulled(ttl, s.(clock := 0.0, lastDone := 0.0)) && s.clock == s.lastDone == t
  {
    hide Run;
    hide KeepsUp;
    RunSnoc(ttl, lag, 0.0, before, Tick(t));
    acts := before + [Tick(t)];
    RunSnoc(ttl, lag, 0.0, acts, BeginScan(1));
    acts := acts + [BeginScan(1)];
    RunSnoc(ttl, lag, 0.0, acts, ScanOne(1, "j"));
    acts := acts + [ScanOne(1, "j")];
    assert Run(ttl, 0.0, acts).scans[1].todo == {};
    RunSnoc(ttl, lag, 0.0, acts, EndScan(1));
    acts := acts + [EndScan(1)];
  }

  /** n scans, one every d, before the job's data expires. */
  lemma {:induction false} ScanEvery(ttl: real, lag: real, d: real, n: nat) returns (acts: seq<Action>)
    requires 0.0 < d < lag && n as real * d < ttl
    ensures KeepsUp(ttl, lag, 0.0, acts)
    ensures var s := Run(ttl, 0.0, acts);
      JustPulled(ttl, s.(clock := 0.0, lastDone := 0.0)) && s.clock == s.lastDone == n as real * d
  {
    hide Run;
    hide KeepsUp;
    if n == 0 {
      acts := PullOnce(ttl, lag);
    } else {
      assert n as real * d == (n - 1) as real * d + d;
      acts := ScanEvery(ttl, lag, d, n - 1);
      acts := ScanAt(ttl, lag, acts, n as real * d);
    }
  }

  /** Scans that lag by any more than one TTL can lose a job: the last scan before the job's data
      expires keeps it, the next comes when its backup has expired and drops it, and then it is
      nowhere else. */
  lemma LateScanDropsJob(ttl: real, lag: real) returns (acts: seq<Action>)
    requires 0.0 < ttl < lag
    ensures KeepsUp(ttl, lag, 0.0, acts)
    ensures var s := Run(ttl, 0.0, acts);
      && "j" in s.dropped && "j" !in s.k.pending && "j" !in s.k.processing && "j" !in s.completed && "j" !in s.k.dead
  {
    hide Run;
    hide KeepsUp;
    var early := if lag - ttl < ttl then (lag - ttl) / 2.0 else ttl / 2.0;
    acts := PullOnce(ttl, lag);
    acts := ScanAt(ttl, lag, acts, ttl - early);
    RunSnoc(ttl, lag, 0.0, acts, Tick(2.0 * ttl));
    acts := acts + [Tick(2.0 * ttl)];
    RunSnoc(ttl, lag, 0.0, acts, BeginScan(1));
    acts := acts + [BeginScan(1)];
    assert Run(ttl, 0.0, acts).scans[1].todo == {"j"};
    RunSnoc(ttl, lag, 0.0, acts, ScanOne(1, "j"));
    acts := acts + [ScanOne(1, "j")];
  }

  /** One TTL is the threshold: runs whose scans lag by less than `lag` never drop a job if and only
      if `lag` is at most one TTL. */
  lemma DropThreshold(ttl: real, lag: real)
    requires ttl > 0.0
    ensures (forall t0: real, acts :: KeepsUp(ttl, lag, t0, acts) ==> Run(ttl, t0, acts).dropped == {}) <==> lag <= ttl
  {
    if lag <= ttl {
      forall t0: real, acts | KeepsUp(ttl, lag, t0, acts) ensures Run(ttl, t0, acts).dropped == {} {
        NoJobIsDropped(ttl, lag, t0, acts);
      }
    } else {
      var acts := LateScanDropsJob(ttl, lag);
    }
  }

  /** Execution is not at most once, however often scans run: pulling does not renew the data key,
      so a job that runs past its TTL is re-queued and pulled again while the first worker runs. */
  lemma SlowJobRunsTwice(ttl: real, lag: real) returns (acts: seq<Action>)
    requires 0.0 < ttl && 0.0 < lag
    ensures KeepsUp(ttl, lag, 0.0, acts)
    ensures var r := Run(ttl, 0.0, acts).running; 0 in r && 1 in r && r[0] == r[1] == "j"
  {
    hide Run;
    hide KeepsUp;
    var m, d := EvenSteps(ttl, lag);
    acts := ScanEvery(ttl, lag, d, m - 1);
    RunSnoc(ttl, lag, 0.0, acts, Tick(ttl));
    acts := acts + [Tick(ttl)];
    RunSnoc(ttl, lag, 0.0, acts, BeginScan(1));
    acts := acts + [BeginScan(1)];
    assert Run(ttl, 0.0, acts).scans[1].todo == {"j"};
    RunSnoc(ttl, lag, 0.0, acts, ScanOne(1, "j"));
    acts := acts + [ScanOne(1, "j")];
    assert Run(ttl, 0.0, acts).k.pending == ["j"];
    RunSnoc(ttl, lag, 0.0, acts, PullJob(1));
    acts := acts + [PullJob(1)];
  }

  /** A TTL divides into equal steps, each shorter than the lag. */
  lemma EvenSteps(ttl: real, lag: real) returns (m: nat, d: real)
    requires 0.0 < ttl && 0.0 < lag
    ensures m >= 1 && 0.0 < d < lag && (m - 1) as real * d + d == ttl
  {
    var q := ttl / lag;
    assert q * lag == ttl;
    m := q.Floor + 1;
    d := ttl / m as real;
    assert d * m as real == ttl;
    assert m as real > q;
    assert d > 0.0;
    if d >= lag {
      MoreTimesMore(lag, d, q, m as real);
    }
    assert (m - 1) as real * d + d == m as real * d;
  }

  lemma MoreTimesMore(a: real, b: real, x: real, y: real)
    requires 0.0 < a <= b && 0.0 < x < y
    ensures x * a < b * y
  {
    assert x * a <= x * b;
    assert x * b < y * b;
  }
}
