/** One job's execution in services/sandbox_executor/processor.py: the interrupt/auto-continue loop
    around the SDK, and the setup, error and cleanup paths around that loop.

    The SDK, the cancel channel, the stop command and the inbox are an arbitrary script: for each
    turn of the loop, what happened. The worktree lock is the object of WorktreeLock, and between
    any two of its operations the clock and the other workers do whatever they like. Redis itself
    does not fail. */
module JobExecution {
  import opened Wrappers
  import WL = WorktreeLock

  datatype Result = Result(sessionId: Option<string>, response: string, isCancelled: bool)

  /** How a run under a worktree lock ends. `cancelSeen`: the cancel signal was handled although
      the task still finished. `stopSet`: the user's stop event was set by the end of the run.
      `marked`: the task ended cancelled and the lock is marked interrupted, rather than the wait
      itself being cancelled. */
  datatype LockedRun =
    | Finished(result: Option<Result>, cancelSeen: bool, stopSet: bool)
    | TaskCancelled(stopSet: bool, marked: bool)
    | StoppedByUser
    | RunRaised

  /** Without a lock nothing interrupts a run. */
  datatype PlainRun = PlainFinished(result: Option<Result>) | PlainRaised

  /** One turn of the loop. `inbox` is what popping the session inbox after the run returns. */
  datatype Turn = Turn(buildRaises: bool, locked: LockedRun, plain: PlainRun, inbox: seq<string>)

  /** A job's circumstances. `cap` is MAX_AUTO_CONTINUES; `streaming` says that a streaming bridge
      and a session token exist; `resumed` is the prompt and session taken over when the lock came
      only after waiting; `savesSession` says that saving the session metadata works. */
  datatype Job = Job(
    validId: bool,
    setup: Setup,
    teardownRaises: bool,
    hasLock: bool,
    streaming: bool,
    cap: int,
    prompt: string,
    sessionId: Option<string>,
    resumed: Started,
    savesSession: bool,
    turns: nat -> Turn)

  /** Setting up: it can fail before the lock, for want of the lock, or after. */
  datatype Setup = SetupOk | FailsBeforeLock | FailsToAcquire | FailsAfterLock

  datatype Status = Success | Cancelled | Superseded | Error

  /** A started SDK run: its prompt, and the session it resumes if any. */
  datatype Started = Started(prompt: string, session: Option<string>)

  datatype LoopEnd = Raised | SupersededBy | Returned(result: Option<Result>)

  function Joined(parts: seq<string>): string {
    if parts == [] then "" else if |parts| == 1 then parts[0] else parts[0] + "; " + Joined(parts[1..])
  }

  /** The prompt of the next run: the first message, and the others as a follow-up. */
  function Merged(inbox: seq<string>): string
    requires inbox != []
  {
    if |inbox| == 1 then inbox[0] else inbox[0] + "\n\n(Follow-up: " + Joined(inbox[1..]) + ")"
  }

  // ---------------------------------------------------------------- what one turn does

  predicate TurnRaises(job: Job, i: nat) {
    var t := job.turns(i);
    || t.buildRaises
    || (if job.hasLock then t.locked.RunRaised? else t.plain.PlainRaised?)
    || (!Interrupted(job, i) && Delivered(job, i) == Some(None))
  }

  predicate Interrupted(job: Job, i: nat) {
    job.hasLock &&
    match job.turns(i).locked
    case Finished(_, cancelSeen, _) => cancelSeen
    case TaskCancelled(_, _) => true
    case StoppedByUser => true
    case RunRaised => false
  }

  predicate StopSet(job: Job, i: nat) {
    job.hasLock &&
    match job.turns(i).locked
    case Finished(_, _, stopSet) => stopSet
    case TaskCancelled(stopSet, _) => stopSet
    case StoppedByUser => true
    case RunRaised => false
  }

  /** What the run of turn i assigns to `result`, if it assigns anything. */
  function Delivered(job: Job, i: nat): Option<Option<Result>> {
    if job.hasLock then
      match job.turns(i).locked
      case Finished(r, _, _) => Some(r)
      case _ => None
    else
      match job.turns(i).plain
      case PlainFinished(r) => Some(r)
      case PlainRaised => None
  }

  /** Turn i ends the loop because another job's prompt superseded this one. */
  predicate Supersedes(job: Job, i: nat) {
    !TurnRaises(job, i) && Interrupted(job, i) && !StopSet(job, i)
  }

  /** Turn i goes on to another turn: there is a message to continue with. */
  predicate Continues(job: Job, i: nat) {
    !TurnRaises(job, i) && !Supersedes(job, i) && job.streaming && job.turns(i).inbox != []
  }

  // ---------------------------------------------------------------- the loop, recursively

  function Sessions(r: Option<Result>): Option<string> {
    if r.Some? then r.value.sessionId else None
  }

  /** `result` after turn i; a run that delivers nothing leaves the previous turn's result. */
  function ResultAfter(job: Job, i: nat, result: Option<Result>): Option<Result> {
    if Delivered(job, i).Some? then Delivered(job, i).value else result
  }

  function StoppedResult(session: Option<string>): Result {
    Result(session, "Stopped by user", true)
  }

  function Loop(job: Job, i: nat, result: Option<Result>, next: Started): (LoopEnd, seq<Started>)
    decreases job.cap + 1 - i
  {
    if i > job.cap then (Returned(result), [])
    else if job.turns(i).buildRaises then (Raised, [])
    else if TurnRaises(job, i) then (Raised, [next])
    else if Supersedes(job, i) then (SupersededBy, [next])
    else
      var r := ResultAfter(job, i, result);
      if Continues(job, i) then
        var rest := Loop(job, i + 1, r, Started(Merged(job.turns(i).inbox), Sessions(r)));
        (rest.0, [next] + rest.1)
      else if Interrupted(job, i) && StopSet(job, i) && r == None then
        (Returned(Some(StoppedResult(next.session))), [next])
      else (Returned(r), [next])
  }

  function LoopOf(job: Job): (LoopEnd, seq<Started>) {
    Loop(job, 0, None, Started(job.prompt, job.sessionId))
  }

  /** The terminal statuses recorded for the job. */
  function Recorded(job: Job): seq<Status> {
    if !job.validId || !job.setup.SetupOk? then [Error] else
    match LoopOf(job).0
    case Raised => [Error]
    case SupersededBy => [Superseded]
    case Returned(r) =>
      if job.teardownRaises then [Error]
      else if r == None then []
      else if r.value.isCancelled then [Cancelled] else [Success]
  }

  // ---------------------------------------------------------------- the lock, seen from the job

  const LOCK_TTL := 600
  const WAIT_POLLS := 300

  /** What the job cannot control: the clock reading of its n-th lock operation, and what the other
      workers do to the locks before it. */
  datatype Env = Env(clock: nat -> int, others: (nat, WL.Store) -> WL.Store)

  /** The store after the other workers' first n doings, the job itself doing nothing. */
  function OthersOnly(env: Env, store: WL.Store, n: nat): WL.Store {
    if n == 0 then store else env.others(n - 1, OthersOnly(env, store, n - 1))
  }

  /** The key is free at the n-th operation, if the job has changed nothing before. */
  predicate Free(env: Env, store: WL.Store, key: string, n: nat) {
    !WL.Live(OthersOnly(env, store, n + 1), key, env.clock(n))
  }

  /** Poll p is the first of the polls to find the key free. */
  predicate FirstFree(env: Env, store: WL.Store, key: string, p: nat) {
    1 <= p <= WAIT_POLLS && Free(env, store, key, p) && forall q: nat :: 1 <= q < p ==> !Free(env, store, key, q)
  }

  /** The lock is had at once, or some poll finds it free and it is still free right after. */
  ghost predicate Acquires(env: Env, store: WL.Store, key: string) {
    Free(env, store, key, 0) || exists p: nat :: FirstFree(env, store, key, p) && Free(env, store, key, p + 1)
  }

  /** The key is live and names this job. */
  predicate Names(store: WL.Store, key: string, now: int, id: string) {
    WL.Live(store, key, now) && store[key].info.jobId == id
  }

  /** The job as it is once the lock is settled. */
  function Settled(job: Job, acquired: bool, waited: bool): Job {
    if !Tries(job) then job
    else if !acquired then job.(setup := FailsToAcquire)
    else if waited then job.(prompt := job.resumed.prompt, sessionId := job.resumed.session)
    else job
  }

  /** The job gets as far as trying to acquire the lock. */
  predicate Tries(job: Job) {
    job.validId && !job.setup.FailsBeforeLock? && job.hasLock
  }

  // ---------------------------------------------------------------- the processor object

  class Processor {
    const job: Job
    const id: string
    const key: string
    const env: Env
    const redis: WL.Redis
    var lock: WL.Lock?
    var step: nat
    var recorded: seq<Status>
    var started: seq<Started>

    constructor (job: Job, id: string, key: string, env: Env, redis: WL.Redis)
      ensures this.job == job && this.id == id && this.key == key && this.env == env && this.redis == redis
      ensures recorded == [] && started == [] && lock == null && step == 0
    {
      this.job, this.id, this.key, this.env, this.redis := job, id, key, env, redis;
      recorded, started, lock, step := [], [], null, 0;
    }

    /** The lock, if the job uses one, is this job's and acquired. */
    predicate Holding()
      reads this, lock
    {
      job.hasLock ==> lock != null && lock.redis == redis && lock.key == key && lock.acquired && lock.jobId == Some(id)
    }

    /** The job's key has at least half a second left. */
    predicate LeftOver(locks: WL.Store, now: int) {
      key in locks && locks[key].deadline - now >= 500
    }

    /** The locks after an update by this job, as its n-th lock operation. */
    function Updated(n: nat, locks: WL.Store, f: WL.Field): WL.Store {
      WL.UpdateField(env.others(n, locks), key, env.clock(n), f).0
    }

    /** Time passes and other workers act before the next lock operation. */
    method Meanwhile() returns (now: int)
      modifies `step, redis
      ensures step == old(step) + 1 && now == env.clock(old(step)) && redis.locks == env.others(old(step), old(redis.locks))
    {
      redis.locks := env.others(step, redis.locks);
      now := env.clock(step);
      step := step + 1;
    }

    /** Waits for the run of turn i: with a lock, also for a cancel or a stop. A cancelled task
        marks the lock. */
    method AwaitRun(j: Job, i: nat, result: Option<Result>)
      returns (raised: bool, result': Option<Result>, interrupted: bool, stop: bool)
      requires !j.turns(i).buildRaises && j.hasLock == job.hasLock && Holding()
      modifies `step, redis
      ensures TurnRaises(j, i) <==> raised || (result' == None && !interrupted)
      ensures var marks := j.hasLock && j.turns(i).locked.TaskCancelled? && j.turns(i).locked.marked;
              && step == old(step) + (if marks then 1 else 0)
              && redis.locks == (if marks then Updated(old(step), old(redis.locks), WL.StatusField(WL.Interrupted)) else old(redis.locks))
              && (marks && LeftOver(env.others(old(step), old(redis.locks)), env.clock(old(step))) ==>
                    key in redis.locks && redis.locks[key].info.status == WL.Interrupted
                    && redis.locks[key].info.jobId == env.others(old(step), old(redis.locks))[key].info.jobId)
      ensures !raised ==> result' == ResultAfter(j, i, result) && interrupted == Interrupted(j, i) && stop == StopSet(j, i)
      ensures !this.job.hasLock ==> step == old(step) && redis.locks == old(redis.locks)
    {
      raised, result', interrupted, stop := false, result, false, false;
      if j.hasLock {
        match j.turns(i).locked
        case Finished(r, cancelSeen, stopSet) => result', interrupted, stop := r, cancelSeen, stopSet;
        case TaskCancelled(stopSet, marked) =>
          interrupted, stop := true, stopSet;
          if marked {
            var now := Meanwhile();
            lock.Update(now, WL.StatusField(WL.Interrupted));
          }
        case StoppedByUser => interrupted, stop := true, true;
        case RunRaised => raised := true;
      } else {
        match j.turns(i).plain
        case PlainFinished(r) => result' := r;
        case PlainRaised => raised := true;
      }
    }

    method ExecuteSdkLoop(job: Job) returns (end: LoopEnd)
      requires job.hasLock == this.job.hasLock && Holding()
      modifies `recorded, `started, `step, redis
      ensures end == LoopOf(job).0
      ensures started == old(started) + LoopOf(job).1
      ensures recorded == old(recorded) + (if end.SupersededBy? then [Superseded] else [])
      ensures !this.job.hasLock ==> step == old(step) && redis.locks == old(redis.locks)
    {
      hide TurnRaises;
      hide Interrupted;
      hide StopSet;
      hide ResultAfter;
      var result: Option<Result> := None;
      var prompt, session := job.prompt, job.sessionId;
      var count := 0;
      while count <= job.cap
        invariant 0 <= count && (count == 0 || count <= job.cap + 1)
        invariant recorded == old(recorded) && lock == old(lock) && Holding()
        invariant !this.job.hasLock ==> step == old(step) && redis.locks == old(redis.locks)
        invariant Loop(job, count, result, Started(prompt, session)).0 == LoopOf(job).0
        invariant started + Loop(job, count, result, Started(prompt, session)).1 == old(started) + LoopOf(job).1
      {
        var turn := job.turns(count);
        ghost var before, next, rest := started, Started(prompt, session), Loop(job, count, result, Started(prompt, session)).1;
        if turn.buildRaises {
          return Raised;
        }
        started := started + [Started(prompt, session)];
        assert rest != [] && rest[0] == next && before + rest == started + rest[1..];
        var raised, interrupted, stop;
        raised, result, interrupted, stop := AwaitRun(job, count, result);
        if raised {
          return Raised;
        }
        if interrupted && !stop {
          recorded := recorded + [Superseded];
          return SupersededBy;
        }
        if result == None && !interrupted {
          return Raised;
        }
        if job.streaming && turn.inbox != [] {
          prompt := turn.inbox[0];
          if |turn.inbox| > 1 {
            prompt := prompt + "\n\n(Follow-up: " + Joined(turn.inbox[1..]) + ")";
          }
          session := if result.Some? then result.value.sessionId else None;
          count := count + 1;
        } else {
          if interrupted && stop && result == None {
            result := Some(StoppedResult(session));
          }
          return Returned(result);
        }
      }
      return Returned(result);
    }

    /** Acquires at once, or waits for the key to be free and tries once more. */
    method TakeLock(lock: WL.Lock) returns (acquired: bool, waited: bool)
      requires lock.redis == redis && lock.key == key && !lock.acquired && step == 0
      modifies `step, redis, lock
      ensures acquired <==> Acquires(env, old(redis.locks), key)
      ensures waited <==> !Free(env, old(redis.locks), key, 0)
      ensures lock.acquired == acquired && (acquired ==> lock.jobId == Some(id))
      ensures !acquired ==> redis.locks == OthersOnly(env, old(redis.locks), step)
      ensures acquired ==>
                && step > 0 && key in redis.locks
                && redis.locks[key] == WL.Entry(WL.LockInfo(id, None, WL.Running), env.clock(step - 1) + 600_000)
    {
      ghost var locks := redis.locks;
      waited := false;
      var now := Meanwhile();
      assert redis.locks == OthersOnly(env, locks, 1);
      acquired := lock.Acquire(now, id, LOCK_TTL);
      if acquired {
        return;
      }
      waited := true;
      var free, polls := false, 0;
      while polls < WAIT_POLLS && !free
        invariant 0 <= polls <= WAIT_POLLS && step == polls + 1
        invariant redis.locks == OthersOnly(env, locks, step) && !lock.acquired
        invariant forall q: nat :: 1 <= q <= polls && (q < polls || !free) ==> !Free(env, locks, key, q)
        invariant free ==> polls >= 1 && Free(env, locks, key, polls)
      {
        now := Meanwhile();
        free := !WL.Live(redis.locks, key, now);
        polls := polls + 1;
      }
      if !free {
        return;
      }
      assert FirstFree(env, locks, key, polls);
      now := Meanwhile();
      acquired := lock.Acquire(now, id, LOCK_TTL);
    }

    /** Saves the session, which also notes it in the lock. */
    method SaveSession(result: Result)
      requires Holding()
      modifies `step, redis
      ensures var notes := job.hasLock && job.savesSession && result.sessionId.Some? && result.sessionId.value != "";
              && step == old(step) + (if notes then 1 else 0)
              && redis.locks == if notes then Updated(old(step), old(redis.locks), WL.SessionField(result.sessionId.value)) else old(redis.locks)
      ensures job.hasLock && job.savesSession && result.sessionId.Some? && result.sessionId.value != "" && LeftOver(env.others(old(step), old(redis.locks)), env.clock(old(step))) ==>
                key in redis.locks && redis.locks[key].info.sessionId == result.sessionId
                && redis.locks[key].info.jobId == env.others(old(step), old(redis.locks))[key].info.jobId
    {
      if result.sessionId.Some? && result.sessionId.value != "" && job.hasLock && job.savesSession {
        var now := Meanwhile();
        lock.Update(now, WL.SessionField(result.sessionId.value));
      }
    }

    /** The whole job, for every script, clock and behaviour of the other workers. If it acquired the
        lock, then when it returns its key does not name it any more, however it ended; if it never
        did, it has not touched the locks at all. */
    method Process() returns (acquired: bool, waited: bool)
      requires recorded == [] && started == [] && lock == null && step == 0
      modifies this, redis
      ensures acquired <==> Tries(job) && Acquires(env, old(redis.locks), key)
      ensures waited <==> Tries(job) && !Free(env, old(redis.locks), key, 0)
      ensures recorded == Recorded(Settled(job, acquired, waited))
      ensures started == Runs(Settled(job, acquired, waited))
      ensures !job.validId || job.setup.FailsBeforeLock? || (job.hasLock && !acquired) || job.setup.FailsAfterLock? ==>
                recorded == [Error] && started == []
      ensures job.validId && job.setup.SetupOk? && (job.hasLock ==> acquired) && job.teardownRaises ==>
                recorded == [Error] || recorded == [Superseded]
      ensures started != [] ==>
                started[0] == if waited then job.resumed else Started(job.prompt, job.sessionId)
      ensures lock != null <==> Tries(job)
      ensures lock != null ==> !lock.acquired
      ensures acquired ==> step > 0 && forall now :: now >= env.clock(step - 1) ==> !Names(redis.locks, key, now, id)
      ensures !acquired ==> redis.locks == OthersOnly(env, old(redis.locks), step)
    {
      acquired, waited := false, false;
      if !job.validId {
        recorded := recorded + [Error];
      } else if job.setup.FailsBeforeLock? {
        recorded := recorded + [Error];
      } else {
        if job.hasLock {
          lock := new WL.Lock(redis, key);
          acquired, waited := TakeLock(lock);
        }
        if job.hasLock && !acquired {
          recorded := recorded + [Error];
        } else {
          RunJob(Settled(job, acquired, waited));
        }
      }
      if lock != null {
        var now := Meanwhile();
        lock.Release(now);
      }
    }

    /** From the settled lock to the recorded status. */
    method RunJob(job: Job)
      requires job.validId && job.hasLock == this.job.hasLock
      requires Holding() && recorded == [] && started == []
      modifies `recorded, `started, `step, redis
      ensures recorded == Recorded(job) && started == Runs(job)
      ensures !job.setup.SetupOk? ==> recorded == [Error] && started == []
      ensures job.setup.SetupOk? && job.teardownRaises ==> recorded == [Error] || recorded == [Superseded]
      ensures started != [] ==> started[0] == Started(job.prompt, job.sessionId)
      ensures !this.job.hasLock ==> step == old(step) && redis.locks == old(redis.locks)
    {
      if !job.setup.SetupOk? {
        recorded := recorded + [Error];
        return;
      }
      var end := ExecuteSdkLoop(job);
      match end
      case Raised => recorded := recorded + [Error];
      case SupersededBy =>
      case Returned(r) =>
        if job.teardownRaises {
          recorded := recorded + [Error];
        } else if r.Some? {
          SaveSession(r.value);
          recorded := recorded + [if r.value.isCancelled then Cancelled else Success];
        }
    }
  }

  /** The SDK runs the job starts. */
  function Runs(job: Job): seq<Started> {
    if job.validId && job.setup.SetupOk? then LoopOf(job).1 else []
  }

  // ---------------------------------------------------------------- the loop, declaratively

  /** The first turn that does not continue, or cap + 1 if all turns up to the cap continue. */
  predicate IsLastTurn(job: Job, k: nat) {
    && (forall i: nat :: i < k ==> Continues(job, i))
    && (k > 0 ==> k <= job.cap + 1)
    && (k <= job.cap ==> !Continues(job, k))
    && (k > job.cap ==> k == 0 || k == job.cap + 1)
  }

  /** The result delivered last in the turns before k. */
  function LastDelivered(job: Job, k: nat): Option<Result> {
    if k == 0 then None else ResultAfter(job, k - 1, LastDelivered(job, k - 1))
  }

  /** The prompt and session a turn's run starts with. */
  function Opening(job: Job, i: nat): Started
    requires i > 0 ==> job.turns(i - 1).inbox != []
  {
    if i == 0 then Started(job.prompt, job.sessionId)
    else Started(Merged(job.turns(i - 1).inbox), Sessions(LastDelivered(job, i)))
  }

  /** How the loop ends, told from its last turn alone and the result delivered last. */
  function EndAt(job: Job, k: nat): LoopEnd
    requires k <= job.cap && k > 0 ==> job.turns(k - 1).inbox != []
  {
    if k > job.cap then Returned(LastDelivered(job, k))
    else if TurnRaises(job, k) then Raised
    else if Supersedes(job, k) then SupersededBy
    else if LastDelivered(job, k + 1) == None then Returned(Some(StoppedResult(Opening(job, k).session)))
    else Returned(LastDelivered(job, k + 1))
  }

  ghost function RunCount(job: Job, k: nat): nat {
    if k > job.cap || job.turns(k).buildRaises then k else k + 1
  }

  /** Run i of a list that begins at turn `from` starts as turn from + i should. */
  predicate OpensRight(job: Job, from: nat, runs: seq<Started>) {
    forall i :: 0 <= i < |runs| ==> OpensAs(job, from + i, runs[i])
  }

  predicate OpensAs(job: Job, i: nat, run: Started) {
    (i > 0 ==> job.turns(i - 1).inbox != []) && run == Opening(job, i)
  }

  lemma {:induction false} LoopFromTurn(job: Job, i: nat, k: nat)
    requires IsLastTurn(job, k) && i <= k && (i > 0 ==> job.turns(i - 1).inbox != [])
    ensures k > 0 ==> job.turns(k - 1).inbox != []
    ensures Loop(job, i, LastDelivered(job, i), Opening(job, i)).0 == EndAt(job, k)
    ensures |Loop(job, i, LastDelivered(job, i), Opening(job, i)).1| == RunCount(job, k) - i
    ensures OpensRight(job, i, Loop(job, i, LastDelivered(job, i), Opening(job, i)).1)
    decreases k - i
  {
    if i < k {
      assert Continues(job, i);
      LoopFromTurn(job, i + 1, k);
      var later := Loop(job, i + 1, LastDelivered(job, i + 1), Opening(job, i + 1)).1;
      OpensRightCons(job, i, later);
      assert Loop(job, i, LastDelivered(job, i), Opening(job, i)).1 == [Opening(job, i)] + later;
    }
  }

  lemma OpensRightCons(job: Job, from: nat, later: seq<Started>)
    requires from > 0 ==> job.turns(from - 1).inbox != []
    requires OpensRight(job, from + 1, later)
    ensures OpensRight(job, from, [Opening(job, from)] + later)
  {
    var runs := [Opening(job, from)] + later;
    assert OpensAs(job, from, Opening(job, from));
    hide OpensAs;
    forall i | 0 <= i < |runs| ensures OpensAs(job, from + i, runs[i]) {
      if i > 0 {
        var k := i - 1;
        assert OpensAs(job, from + 1 + k, later[k]);
        assert from + 1 + k == from + i && runs[i] == later[k];
      }
    }
  }

  lemma LastTurnExists(job: Job) returns (k: nat)
    ensures IsLastTurn(job, k)
  {
    k := 0;
    while k <= job.cap && Continues(job, k)
      invariant forall i: nat :: i < k ==> Continues(job, i)
      invariant k > 0 ==> k <= job.cap + 1
    {
      k := k + 1;
    }
  }

  // ---------------------------------------------------------------- main results

  /** For every script: the job starts at most cap + 1 SDK runs, each one after the first with the
      merged messages of the turn before and the session delivered last; and it records at most
      one terminal status. */
  lemma RunsAndStatusesAreBounded(job: Job)
    ensures |Runs(job)| <= (if job.cap < 0 then 0 else job.cap + 1)
    ensures OpensRight(job, 0, Runs(job))
    ensures |Recorded(job)| <= 1
  {
    var k := LastTurnExists(job);
    LoopFromTurn(job, 0, k);
  }

  /** `execute_sdk` returns a result or raises; only the processor itself makes cancelled results. */
  ghost predicate SdkDelivers(job: Job) {
    forall i: nat :: Delivered(job, i).Some? ==> Delivered(job, i).value.Some? && !Delivered(job, i).value.value.isCancelled
  }

  /** The run of turn i was stopped by the user before it delivered anything. */
  predicate StoppedEmpty(job: Job, i: nat) {
    !TurnRaises(job, i) && Interrupted(job, i) && StopSet(job, i) && Delivered(job, i) == None
  }

  lemma {:induction false} NothingDelivered(job: Job, k: nat)
    requires SdkDelivers(job)
    ensures LastDelivered(job, k) == None <==> forall i: nat :: i < k ==> Delivered(job, i) == None
    ensures LastDelivered(job, k).Some? ==> !LastDelivered(job, k).value.isCancelled
  {
    if k > 0 {
      NothingDelivered(job, k - 1);
    }
  }

  /** A job ends without any status exactly when every turn up to the cap was stopped by the user
      before delivering anything and found another message waiting. */
  lemma NoStatusIff(job: Job)
    requires SdkDelivers(job)
    ensures Recorded(job) == [] <==>
      && job.validId && job.setup.SetupOk? && !job.teardownRaises
      && (forall i: nat :: i <= job.cap ==> StoppedEmpty(job, i) && job.streaming && job.turns(i).inbox != [])
  {
    var k := LastTurnExists(job);
    LoopFromTurn(job, 0, k);
    NothingDelivered(job, k);
    if k <= job.cap {
      NothingDelivered(job, k + 1);
      assert !Continues(job, k);
    } else if LastDelivered(job, k) == None {
      forall i: nat | i <= job.cap ensures StoppedEmpty(job, i) && job.streaming && job.turns(i).inbox != [] {
        assert Continues(job, i);
      }
    } else {
      var i: nat :| i < k && Delivered(job, i) != None;
      assert !StoppedEmpty(job, i);
    }
  }

  /** Which status is recorded follows from the last turn k: a raise is an error and a foreign
      cancel is superseded. Otherwise it is success if any run delivered a result, even one before
      the run the user stopped, and cancelled only if none did. */
  lemma StatusFromLastTurn(job: Job, k: nat)
    requires SdkDelivers(job) && job.validId && job.setup.SetupOk? && !job.teardownRaises
    requires IsLastTurn(job, k) && k <= job.cap
    ensures Recorded(job) == [
      if TurnRaises(job, k) then Error
      else if Supersedes(job, k) then Superseded
      else if exists i: nat :: i <= k && Delivered(job, i).Some? then Success
      else Cancelled]
  {
    LoopFromTurn(job, 0, k);
    NothingDelivered(job, k + 1);
    if i: nat :| i <= k && Delivered(job, i).Some? {
      assert i < k + 1;
    }
  }

  // ---------------------------------------------------------------- told from the script

  /** The run of turn i raises, or ends without a result although nothing interrupted it. */
  predicate Breaks(job: Job, i: nat) {
    var t := job.turns(i);
    || t.buildRaises
    || (job.hasLock && (t.locked.RunRaised? || (t.locked.Finished? && t.locked.result == None && !t.locked.cancelSeen)))
    || (!job.hasLock && (t.plain.PlainRaised? || t.plain == PlainFinished(None)))
  }

  /** A cancel reached the run of turn i, and it was not the user's stop. */
  predicate Preempted(job: Job, i: nat) {
    && job.hasLock && !job.turns(i).buildRaises
    && match job.turns(i).locked
       case Finished(_, cancelSeen, stopSet) => cancelSeen && !stopSet
       case TaskCancelled(stopSet, _) => !stopSet
       case _ => false
  }

  /** The run of turn i hands over this result, which replaces the one before. */
  predicate HandsOver(job: Job, i: nat, r: Option<Result>) {
    if job.hasLock then job.turns(i).locked.Finished? && job.turns(i).locked.result == r
    else job.turns(i).plain == PlainFinished(r)
  }

  /** How turn i ends, told from what happened in it. */
  lemma TurnFromScript(job: Job, i: nat)
    ensures TurnRaises(job, i) <==> Breaks(job, i)
    ensures Supersedes(job, i) <==> Preempted(job, i)
    ensures Continues(job, i) <==> !Breaks(job, i) && !Preempted(job, i) && job.streaming && job.turns(i).inbox != []
    ensures forall r :: Delivered(job, i) == Some(r) <==> HandsOver(job, i, r)
  {
  }

  /** What a turn starts and ends with, told from the script: the first run has the job's own prompt
      and session, a later one the session of the result handed over last, if there is one; a job
      the user stopped before any result ends with a cancelled one that names its session. */
  lemma OpeningFromScript(job: Job, i: nat)
    requires i > 0 ==> job.turns(i - 1).inbox != []
    ensures LastDelivered(job, 0) == None
    ensures forall r :: HandsOver(job, i, r) ==> LastDelivered(job, i + 1) == r
    ensures (forall r :: !HandsOver(job, i, r)) ==> LastDelivered(job, i + 1) == LastDelivered(job, i)
    ensures i == 0 ==> Opening(job, i) == Started(job.prompt, job.sessionId)
    ensures i > 0 ==>
              Opening(job, i) == Started(Merged(job.turns(i - 1).inbox), if LastDelivered(job, i).Some? then LastDelivered(job, i).value.sessionId else None)
    ensures i <= job.cap && !Breaks(job, i) && !Preempted(job, i) && LastDelivered(job, i + 1) == None ==>
              EndAt(job, i) == Returned(Some(Result(Opening(job, i).session, "Stopped by user", true)))
    ensures i <= job.cap && !Breaks(job, i) && !Preempted(job, i) && LastDelivered(job, i + 1).Some? ==>
              EndAt(job, i) == Returned(LastDelivered(job, i + 1))
  {
    TurnFromScript(job, i);
    hide Merged;
  }

  /** Exactly when a job is recorded as an error: its id is invalid, its setup fails, or, k being its
      last turn, that turn breaks, or it ends well but the teardown after it raises. */
  lemma ErrorIff(job: Job, k: nat)
    requires IsLastTurn(job, k)
    ensures Recorded(job) == [Error] <==>
      || !job.validId || !job.setup.SetupOk?
      || (k <= job.cap && Breaks(job, k))
      || (job.teardownRaises && !(k <= job.cap && (Breaks(job, k) || Preempted(job, k))))
  {
    LoopFromTurn(job, 0, k);
    TurnFromScript(job, k);
    hide Loop;
  }

  /** Exactly when it is recorded as superseded: its last turn is cut off by another prompt. */
  lemma SupersededIff(job: Job, k: nat)
    requires IsLastTurn(job, k)
    ensures Recorded(job) == [Superseded] <==> job.validId && job.setup.SetupOk? && k <= job.cap && Preempted(job, k)
  {
    LoopFromTurn(job, 0, k);
    TurnFromScript(job, k);
    hide Loop;
  }

  /** The prompt of the next run: a single message is taken as it is; of several the first is
      followed by the others, separated by semicolons. */
  lemma MergedReads(first: string, more: string, rest: seq<string>)
    ensures Merged([first]) == first
    ensures Merged([first, more]) == first + "\n\n(Follow-up: " + more + ")"
    ensures rest != [] ==> Merged([first, more] + rest) == first + "\n\n(Follow-up: " + more + "; " + Joined(rest) + ")"
    ensures rest != [] ==> Joined([more] + rest) == more + "; " + Joined(rest) && Joined([more]) == more
  {
    assert [first, more][1..] == [more];
    assert ([first, more] + rest)[1..] == [more] + rest;
    assert ([more] + rest)[1..] == rest;
  }
}
