/** The leased worktree lock of shared/worktree_lock.py: set-if-absent with a TTL, compare-and-delete
    release, and field updates that check no owner.

    Times are in milliseconds. A field update reads the remaining life with TTL, which Redis
    rounds to the nearest second, and writes it back with SETEX; so an update can move the
    deadline by up to half a second. */
module WorktreeLock {
  import opened Wrappers

  datatype Status = Running | Interrupted

  datatype LockInfo = LockInfo(jobId: string, sessionId: Option<string>, status: Status)

  datatype Entry = Entry(info: LockInfo, deadline: int)

  /** The two fields that are ever updated. */
  datatype Field = SessionField(id: string) | StatusField(status: Status)

  type Store = map<string, Entry>

  predicate Live(store: Store, key: string, now: int) {
    key in store && now < store[key].deadline
  }

  /** The field that was given has its new value, and the two others are as before. */
  predicate HasField(before: LockInfo, after: LockInfo, f: Field) {
    match f
    case SessionField(id) => after.sessionId == Some(id) && after.status == before.status && after.jobId == before.jobId
    case StatusField(status) => after.status == status && after.sessionId == before.sessionId && after.jobId == before.jobId
  }

  function SetField(info: LockInfo, f: Field): LockInfo {
    match f
    case SessionField(id) => info.(sessionId := Some(id))
    case StatusField(status) => info.(status := status)
  }

  /** The TTL command: milliseconds to the nearest second. */
  function TtlSeconds(e: Entry, now: int): int
    requires now < e.deadline
  {
    (e.deadline - now + 500) / 1000
  }

  function SetIfAbsent(store: Store, key: string, now: int, jobId: string, ttl: int): (Store, bool) {
    if Live(store, key, now) then (store, false)
    else (store[key := Entry(LockInfo(jobId, None, Running), now + 1000 * ttl)], true)
  }

  function CompareDelete(store: Store, key: string, now: int, jobId: string): (Store, bool) {
    if Live(store, key, now) && store[key].info.jobId == jobId then (store - {key}, true) else (store, false)
  }

  function UpdateField(store: Store, key: string, now: int, f: Field): (Store, bool) {
    if !Live(store, key, now) then (store, false) else
    var ttl := TtlSeconds(store[key], now);
    if ttl <= 0 then (store, false)
    else (store[key := Entry(SetField(store[key].info, f), now + 1000 * ttl)], true)
  }

  // ---------------------------------------------------------------- the lock object

  class Redis {
    var locks: Store

    constructor ()
      ensures locks == map[]
    {
      locks := map[];
    }
  }

  class Lock {
    const redis: Redis
    const key: string
    var acquired: bool
    var jobId: Option<string>

    constructor (redis: Redis, key: string)
      ensures this.redis == redis && this.key == key && !acquired && jobId == None
    {
      this.redis := redis;
      this.key := key;
      acquired := false;
      jobId := None;
    }

    /** acquire with timeout 0, the only way the job processor calls it. */
    method Acquire(now: int, job: string, ttl: int) returns (ok: bool)
      modifies this, redis
      ensures (redis.locks, ok) == SetIfAbsent(old(redis.locks), key, now, job, ttl)
      ensures ok <==> !(key in old(redis.locks) && now < old(redis.locks)[key].deadline)
      ensures redis.locks == if ok then old(redis.locks)[key := Entry(LockInfo(job, None, Running), now + 1000 * ttl)] else old(redis.locks)
      ensures if ok then acquired && jobId == Some(job) else acquired == old(acquired) && jobId == old(jobId)
    {
      var value := LockInfo(job, None, Running);
      ok := !Live(redis.locks, key, now);
      if ok {
        redis.locks := redis.locks[key := Entry(value, now + 1000 * ttl)];
        acquired := true;
        jobId := Some(job);
      }
    }

    method Release(now: int)
      modifies this, redis
      ensures !acquired && jobId == old(jobId)
      ensures redis.locks == if old(acquired) && jobId.Some?
                             then CompareDelete(old(redis.locks), key, now, jobId.value).0 else old(redis.locks)
      ensures old(acquired) && jobId.Some? && Live(old(redis.locks), key, now) && old(redis.locks)[key].info.jobId == jobId.value ==>
                redis.locks == old(redis.locks) - {key}
    {
      if !acquired {
        return;
      }
      if jobId == None {
        acquired := false;
        return;
      }
      if Live(redis.locks, key, now) {
        if redis.locks[key].info.jobId == jobId.value {
          redis.locks := redis.locks - {key};
        }
      }
      acquired := false;
    }

    /** set_session_id and set_interrupted. */
    method Update(now: int, f: Field)
      modifies redis
      ensures redis.locks == if acquired then UpdateField(old(redis.locks), key, now, f).0 else old(redis.locks)
      ensures acquired && key in old(redis.locks) && old(redis.locks)[key].deadline - now >= 500 ==>
                key in redis.locks && HasField(old(redis.locks)[key].info, redis.locks[key].info, f)
    {
      if !acquired || !Live(redis.locks, key, now) {
        return;
      }
      var data := SetField(redis.locks[key].info, f);
      var ttl := TtlSeconds(redis.locks[key], now);
      if ttl <= 0 {
        return;
      }
      redis.locks := redis.locks[key := Entry(data, now + 1000 * ttl)];
    }
  }

  // ---------------------------------------------------------------- runs

  /** A worker with its lock object. `since` and `ttl` are those of its last acquisition. `until` is
      when the key it acquired then expires: at first `since` plus the TTL, then wherever updates,
      by anyone, have moved the deadline while the key named this job; `shifts` counts those moves. */
  datatype Worker = Worker(key: string, job: string, acquired: bool, since: int, ttl: int, until: int, shifts: nat)

  datatype State = State(clock: int, store: Store, workers: seq<Worker>)

  datatype Action = Tick(to: int) | Acquire(w: nat, ttl: int) | Release(w: nat) | Update(w: nat, f: Field) | Crash(w: nat)

  /** Does an update at `now` move this deadline? */
  predicate Shifts(store: Store, key: string, now: int) {
    Live(store, key, now) && TtlSeconds(store[key], now) > 0 && (store[key].deadline - now) % 1000 != 0
  }

  /** The worker after the deadline of the key, which names `job`, was moved. */
  function Moved(v: Worker, key: string, job: string, deadline: int): Worker {
    if v.key == key && v.job == job then v.(until := deadline, shifts := v.shifts + 1) else v
  }

  function MoveDeadline(ws: seq<Worker>, key: string, job: string, deadline: int): seq<Worker> {
    seq(|ws|, i requires 0 <= i < |ws| => Moved(ws[i], key, job, deadline))
  }

  /** One action; an action that is not enabled changes nothing. */
  function Step(s: State, a: Action): State {
    match a
    case Tick(to) => if to < s.clock then s else s.(clock := to)
    case Acquire(w, ttl) =>
      if w >= |s.workers| then s else
      var v := s.workers[w];
      var (store, ok) := SetIfAbsent(s.store, v.key, s.clock, v.job, ttl);
      if !ok then s
      else s.(store := store,
              workers := s.workers[w := Worker(v.key, v.job, true, s.clock, ttl, s.clock + 1000 * ttl, 0)])
    case Release(w) =>
      if w >= |s.workers| || !s.workers[w].acquired then s else
      var v := s.workers[w];
      s.(store := CompareDelete(s.store, v.key, s.clock, v.job).0, workers := s.workers[w := v.(acquired := false)])
    case Update(w, f) =>
      if w >= |s.workers| || !s.workers[w].acquired then s else
      var key := s.workers[w].key;
      var store := UpdateField(s.store, key, s.clock, f).0;
      s.(store := store,
         workers := if Shifts(s.store, key, s.clock)
                    then MoveDeadline(s.workers, key, s.store[key].info.jobId, store[key].deadline) else s.workers)
    case Crash(w) =>
      if w >= |s.workers| then s else s.(workers := s.workers[w := s.workers[w].(acquired := false)])
  }

  function Exec(s: State, acts: seq<Action>): State {
    if acts == [] then s else Step(Exec(s, acts[..|acts| - 1]), acts[|acts| - 1])
  }

  predicate Fresh(s: State) {
    s.store == map[] && forall i :: 0 <= i < |s.workers| ==> !s.workers[i].acquired
  }

  /** No two workers of one key have the same job id. */
  predicate DistinctJobs(s: State) {
    forall i, j :: 0 <= i < j < |s.workers| && s.workers[i].key == s.workers[j].key ==> s.workers[i].job != s.workers[j].job
  }

  predicate InLease(v: Worker, now: int) {
    v.acquired && now < v.until
  }

  /** The live key names the worker's job. */
  predicate Owns(s: State, v: Worker) {
    Live(s.store, v.key, s.clock) && s.store[v.key].info.jobId == v.job
  }

  predicate Exact(s: State, v: Worker) {
    && (Owns(s, v) <==> s.clock < v.until)
    && (Owns(s, v) ==> s.store[v.key].deadline == v.until)
    && -500 * v.shifts <= v.until - (v.since + 1000 * v.ttl) <= 500 * v.shifts
  }

  predicate Inv(s: State) {
    DistinctJobs(s) && forall i :: 0 <= i < |s.workers| && s.workers[i].acquired ==> Exact(s, s.workers[i])
  }

  // ---------------------------------------------------------------- single operations

  /** An update never changes the owner, nor any other key. It moves the deadline by at most half a
      second, to a whole number of seconds from now, and exactly when the key is live, at least half
      a second of it remains, and what remains is not whole seconds already. */
  lemma UpdateKeepsOwner(store: Store, key: string, now: int, f: Field)
    ensures var store' := UpdateField(store, key, now, f).0;
      && (forall k :: k != key ==> (k in store' <==> k in store))
      && (forall k :: k != key && k in store ==> store'[k] == store[k])
      && (key in store <==> key in store')
      && (key in store ==>
            var left, left' := store[key].deadline - now, store'[key].deadline - now;
            && store'[key].info.jobId == store[key].info.jobId
            && -500 <= left' - left <= 500
            && (left' != left <==> left >= 500 && left % 1000 != 0)
            && (left' != left ==> left' > 0 && left' % 1000 == 0))
  {
  }

  /** An update of a key with at least half a second left sets the field it names and no other; with
      less left, or none, it changes nothing. */
  lemma UpdateSetsField(store: Store, key: string, now: int, f: Field)
    ensures var (store', ok) := UpdateField(store, key, now, f);
      && (ok <==> key in store && store[key].deadline - now >= 500)
      && (ok ==> key in store' && HasField(store[key].info, store'[key].info, f))
      && (!ok ==> store' == store)
  {
  }

  // ---------------------------------------------------------------- the invariant

  lemma AcquireKeepsInv(s: State, w: nat, ttl: int)
    requires Inv(s)
    ensures Inv(Step(s, Acquire(w, ttl)))
  {
  }

  lemma ReleaseKeepsInv(s: State, w: nat)
    requires Inv(s)
    ensures Inv(Step(s, Release(w)))
  {
  }

  lemma UpdateKeepsInv(s: State, w: nat, f: Field)
    requires Inv(s)
    ensures Inv(Step(s, Update(w, f)))
  {
    if w < |s.workers| && s.workers[w].acquired {
      var s', key := Step(s, Update(w, f)), s.workers[w].key;
      UpdateKeepsOwner(s.store, key, s.clock, f);
      hide UpdateField;
      forall i | 0 <= i < |s'.workers| && s'.workers[i].acquired ensures Exact(s', s'.workers[i]) {
        assert Exact(s, s.workers[i]);
      }
    }
  }

  lemma {:induction false} ExecInv(s: State, acts: seq<Action>)
    requires Fresh(s) && DistinctJobs(s)
    ensures Inv(Exec(s, acts))
  {
    if acts != [] {
      var front, a := Exec(s, acts[..|acts| - 1]), acts[|acts| - 1];
      ExecInv(s, acts[..|acts| - 1]);
      match a
      case Acquire(w, ttl) => AcquireKeepsInv(front, w, ttl);
      case Release(w) => ReleaseKeepsInv(front, w);
      case Update(w, f) => UpdateKeepsInv(front, w, f);
      case _ =>
    }
  }

  // ---------------------------------------------------------------- main results

  /** In every run of workers with distinct job ids per key, a worker that acquired and has not
      released is inside its lease exactly when the live key names its job; the key then expires
      exactly at the end of the lease, which differs from the TTL it asked for by at most half a
      second for each time the deadline was moved. */
  lemma LeaseIsExact(s: State, acts: seq<Action>, i: nat)
    requires Fresh(s) && DistinctJobs(s)
    requires i < |Exec(s, acts).workers| && Exec(s, acts).workers[i].acquired
    ensures var t := Exec(s, acts);
      var v := t.workers[i];
      && (InLease(v, t.clock) <==> Owns(t, v))
      && (InLease(v, t.clock) ==> t.store[v.key].deadline == v.until)
      && -500 * v.shifts <= v.until - (v.since + 1000 * v.ttl) <= 500 * v.shifts
  {
    ExecInv(s, acts);
  }

  /** In every such run a release deletes the key exactly when the releasing worker is inside its
      lease; a stale release changes nothing. */
  lemma ReleaseIsExact(s: State, acts: seq<Action>, i: nat)
    requires Fresh(s) && DistinctJobs(s)
    requires i < |Exec(s, acts).workers| && Exec(s, acts).workers[i].acquired
    ensures var t := Exec(s, acts);
      var v := t.workers[i];
      Step(t, Release(i)).store == if InLease(v, t.clock) then t.store - {v.key} else t.store
  {
    hide Exec;
    LeaseIsExact(s, acts, i);
  }

  /** Two workers of one key are inside their leases. */
  predicate Collide(t: State, i: nat, j: nat) {
    && i < |t.workers| && j < |t.workers| && i != j && t.workers[i].key == t.workers[j].key
    && InLease(t.workers[i], t.clock) && InLease(t.workers[j], t.clock)
  }

  /** So at most one worker per key is ever inside its lease. */
  lemma AtMostOneInLease(s: State, acts: seq<Action>, i: nat, j: nat)
    requires Fresh(s) && DistinctJobs(s)
    ensures !Collide(Exec(s, acts), i, j)
  {
    var t := Exec(s, acts);
    if Collide(t, i, j) {
      ExecInv(s, acts);
      hide Exec;
      LeaseIsExact(s, acts, i);
      LeaseIsExact(s, acts, j);
    }
  }

  lemma {:induction false} ExecSnoc(s: State, acts: seq<Action>, a: Action)
    ensures Exec(s, acts + [a]) == Step(Exec(s, acts), a)
  {
    assert (acts + [a])[..|acts|] == acts;
  }

  /** Two workers with one key and one job id, as when a re-queued job runs twice, can always break
      exclusion, whatever the TTL: the stale release of the first deletes the lock of the second,
      and the first acquires again. No deadline is moved. */
  lemma SameJobTwiceBreaksExclusion(s: State, i: nat, j: nat, ttl: int) returns (acts: seq<Action>)
    requires Fresh(s) && i < |s.workers| && j < |s.workers| && i != j && ttl >= 1
    requires s.workers[i].key == s.workers[j].key && s.workers[i].job == s.workers[j].job
    ensures Collide(Exec(s, acts), j, i)
    ensures Exec(s, acts).workers[i].shifts == Exec(s, acts).workers[j].shifts == 0
  {
    hide Exec;
    ExecNothing(s);
    ExecSnoc(s, [], Acquire(i, ttl));
    acts := [] + [Acquire(i, ttl)];
    ExecSnoc(s, acts, Tick(s.clock + 1000 * ttl));
    acts := acts + [Tick(s.clock + 1000 * ttl)];
    ExecSnoc(s, acts, Acquire(j, ttl));
    acts := acts + [Acquire(j, ttl)];
    ExecSnoc(s, acts, Release(i));
    acts := acts + [Release(i)];
    ExecSnoc(s, acts, Acquire(i, ttl));
    acts := acts + [Acquire(i, ttl)];
  }

  /** The exact condition for mutual exclusion: in all runs of a set of workers at most one per key
      is inside its lease, if and only if no two workers of one key share a job id. */
  lemma MutualExclusionIff(s: State)
    requires Fresh(s)
    ensures (forall acts, i: nat, j: nat :: !Collide(Exec(s, acts), i, j)) <==> DistinctJobs(s)
  {
    if DistinctJobs(s) {
      forall acts, i: nat, j: nat ensures !Collide(Exec(s, acts), i, j) {
        AtMostOneInLease(s, acts, i, j);
      }
    } else {
      var i, j :| 0 <= i < j < |s.workers| && s.workers[i].key == s.workers[j].key && s.workers[i].job == s.workers[j].job;
      var acts := SameJobTwiceBreaksExclusion(s, i, j, 600);
    }
  }

  // ---------------------------------------------------------------- leases that end early

  /** Both workers hold the lock less than the TTL they asked for ago. */
  predicate Overlap(s: State, i: nat, j: nat) {
    && i < |s.workers| && j < |s.workers| && i != j
    && s.workers[i].key == s.workers[j].key
    && s.workers[i].acquired && s.clock < s.workers[i].since + 1000 * s.workers[i].ttl
    && s.workers[j].acquired && s.clock < s.workers[j].since + 1000 * s.workers[j].ttl
  }

  /** An update with this many milliseconds left brings the deadline forward. */
  predicate RoundsDown(left: int) {
    left >= 1000 && 0 < left % 1000 < 500
  }

  /** The first worker acquires, updates a field `u` ms later, and the second tries `t` ms after the
      acquisition. */
  function UpdateThenTry(clock: int, ttl: int, ttl2: int, u: int, t: int, f: Field): seq<Action> {
    [Acquire(0, ttl)] + [Tick(clock + u)] + [Update(0, f)] + [Tick(clock + t)] + [Acquire(1, ttl2)]
  }

  /** One update can end a lease before its TTL, at exactly the moments that round down: for every
      TTL, a second worker with another job id gets in at time t, although the first has neither
      released nor used up its TTL, if and only if the update left less than half a second above a
      whole number of seconds and t is past the deadline it rounded to. */
  lemma UpdateCanShortenLease(clock: int, key: string, job: string, other: string, ttl: int, ttl2: int, u: int, t: int, f: Field)
    requires job != other && 0 <= u <= t < 1000 * ttl && ttl2 >= 1
    ensures var s := State(clock, map[], [Worker(key, job, false, 0, 0, 0, 0), Worker(key, other, false, 0, 0, 0, 0)]);
      var left := 1000 * ttl - u;
      && Fresh(s) && DistinctJobs(s)
      && (Overlap(Exec(s, UpdateThenTry(clock, ttl, ttl2, u, t, f)), 0, 1)
          <==> RoundsDown(left) && t >= 1000 * ttl - left % 1000)
  {
    hide *;
    var s := State(clock, map[], [Worker(key, job, false, 0, 0, 0, 0), Worker(key, other, false, 0, 0, 0, 0)]);
    TwoFreshWorkers(clock, key, job, other);
    var acts := [Acquire(0, ttl)];
    ExecNothing(s);
    ExecSnoc(s, [], Acquire(0, ttl));
    assert [] + acts == acts;
    ExecSnoc(s, acts, Tick(clock + u));
    ExecSnoc(s, acts + [Tick(clock + u)], Update(0, f));
    ExecSnoc(s, acts + [Tick(clock + u)] + [Update(0, f)], Tick(clock + t));
    ExecSnoc(s, acts + [Tick(clock + u)] + [Update(0, f)] + [Tick(clock + t)], Acquire(1, ttl2));
    TryIs(clock, ttl, ttl2, u, t, f);
    AfterUpdate(s, ttl, u, f);
    AfterTry(Step(Step(Step(s, Acquire(0, ttl)), Tick(clock + u)), Update(0, f)), clock, ttl, ttl2, u, t);
  }

  lemma ExecNothing(s: State)
    ensures Exec(s, []) == s
  {
  }

  lemma TwoFreshWorkers(clock: int, key: string, job: string, other: string)
    requires job != other
    ensures var s := State(clock, map[], [Worker(key, job, false, 0, 0, 0, 0), Worker(key, other, false, 0, 0, 0, 0)]);
      Fresh(s) && DistinctJobs(s)
  {
  }

  lemma TryIs(clock: int, ttl: int, ttl2: int, u: int, t: int, f: Field)
    ensures UpdateThenTry(clock, ttl, ttl2, u, t, f)
         == [Acquire(0, ttl)] + [Tick(clock + u)] + [Update(0, f)] + [Tick(clock + t)] + [Acquire(1, ttl2)]
  {
  }

  /** The deadline after an update with so many milliseconds left. */
  function Rounded(left: int): int {
    if left < 500 then left else (left + 500) / 1000 * 1000
  }

  /** Worker 0 holds the key since `clock`; its deadline was rounded at `clock + u`. */
  predicate Updated(s: State, clock: int, ttl: int, u: int) {
    && |s.workers| == 2 && s.clock == clock + u
    && s.workers[0].key == s.workers[1].key && s.workers[0].acquired && !s.workers[1].acquired
    && s.workers[0].since == clock && s.workers[0].ttl == ttl
    && s.workers[0].key in s.store && s.store[s.workers[0].key].deadline == clock + u + Rounded(1000 * ttl - u)
  }

  lemma AfterUpdate(s: State, ttl: int, u: int, f: Field)
    requires s.store == map[] && |s.workers| == 2 && s.workers[0].key == s.workers[1].key && !s.workers[1].acquired
    requires s.workers[0].job != s.workers[1].job && 0 <= u < 1000 * ttl
    ensures Updated(Step(Step(Step(s, Acquire(0, ttl)), Tick(s.clock + u)), Update(0, f)), s.clock, ttl, u)
  {
  }

  lemma AfterTry(s: State, clock: int, ttl: int, ttl2: int, u: int, t: int)
    requires Updated(s, clock, ttl, u) && 0 <= u <= t < 1000 * ttl && ttl2 >= 1
    ensures var left := 1000 * ttl - u;
      Overlap(Step(Step(s, Tick(clock + t)), Acquire(1, ttl2)), 0, 1) <==> RoundsDown(left) && t >= 1000 * ttl - left % 1000
  {
  }
}
