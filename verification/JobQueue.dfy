/** The Redis job queue of shared/job_queue.py: its keys with their TTLs, its four operations,
    and every run of workers that create, pull, finish, crash and scan under one clock.

    Each operation, and each per-job iteration of a reclaim scan, is one atomic step. Payloads
    are JSON objects; what `json.dumps` writes, `json.loads` reads back. */
module JobQueue {
  import opened Wrappers

  type Id = string
  type Payload = map<string, string>

  /** A Redis string key written with SETEX. */
  datatype Stored<T> = Stored(value: T, expires: real)

  predicate Live<T>(m: map<Id, Stored<T>>, j: Id, now: real) {
    j in m && now < m[j].expires
  }

  /** The Redis keys of the queue. */
  datatype Keys = Keys(
    pending: seq<Id>,
    processing: set<Id>,
    data: map<Id, Stored<Payload>>,
    backup: map<Id, Stored<Payload>>,
    status: map<Id, Stored<string>>,
    results: map<Id, Stored<Payload>>,
    dead: seq<Id>)

  const EMPTY := Keys([], {}, map[], map[], map[], map[], [])

  /** The payload without its GitHub token. */
  function Strip(p: Payload): Payload {
    p - {"github_token"}
  }

  /** q has exactly the fields of p other than the GitHub token, with the same values. */
  predicate SameButToken(p: Payload, q: Payload) {
    && "github_token" !in q
    && (forall f :: f in p && f != "github_token" ==> f in q && q[f] == p[f])
    && (forall f :: f in q ==> f in p)
  }

  // ---------------------------------------------------------------- operations on the keys

  function Create(k: Keys, ttl: real, now: real, j: Id, p: Payload): Keys {
    k.(data := k.data[j := Stored(p, now + ttl)],
       status := k.status[j := Stored("pending", now + ttl)],
       pending := k.pending + [j])
  }

  function Pull(k: Keys, ttl: real, now: real): (Keys, Option<(Id, Payload)>) {
    if k.pending == [] then (k, None) else
    var j, popped := k.pending[0], k.(pending := k.pending[1..]);
    if !Live(k.data, j, now) then (popped.(dead := k.dead + [j]), None)
    else (popped.(processing := k.processing + {j},
                  status := k.status[j := Stored("processing", now + ttl)],
                  backup := k.backup[j := Stored(k.data[j].value, now + 2.0 * ttl)]),
          Some((j, k.data[j].value)))
  }

  function Complete(k: Keys, ttl: real, now: real, j: Id, result: Payload, status: string): Keys {
    k.(results := k.results[j := Stored(result, now + ttl)],
       status := k.status[j := Stored(status, now + ttl)],
       processing := k.processing - {j},
       backup := k.backup - {j})
  }

  /** The iteration of a reclaim scan for one job id, and whether it re-queued the job. */
  function Visit(k: Keys, ttl: real, now: real, j: Id): (Keys, bool) {
    if Live(k.data, j, now) then (k, false)
    else if Live(k.backup, j, now) then
      (k.(data := k.data[j := Stored(Strip(k.backup[j].value), now + ttl)],
          status := k.status[j := Stored("pending", now + ttl)],
          pending := k.pending + [j],
          processing := k.processing - {j},
          backup := k.backup - {j}),
       true)
    else (k.(processing := k.processing - {j}), false)
  }

  class Queue {
    const ttl: real
    var pending: seq<Id>
    var processing: set<Id>
    var data: map<Id, Stored<Payload>>
    var backup: map<Id, Stored<Payload>>
    var status: map<Id, Stored<string>>
    var results: map<Id, Stored<Payload>>
    var dead: seq<Id>

    function State(): Keys
      reads this
    {
      Keys(pending, processing, data, backup, status, results, dead)
    }

    constructor (ttl: real)
      ensures this.ttl == ttl && State() == EMPTY
    {
      this.ttl := ttl;
      pending, processing, data, backup, status, results, dead := [], {}, map[], map[], map[], map[], [];
    }

    method CreateJob(now: real, j: Id, p: Payload)
      modifies this
      ensures State() == Create(old(State()), ttl, now, j, p)
      ensures pending == old(pending) + [j]
      ensures data == old(data)[j := Stored(p, now + ttl)] && status == old(status)[j := Stored("pending", now + ttl)]
      ensures processing == old(processing) && backup == old(backup) && results == old(results) && dead == old(dead)
    {
      data := data[j := Stored(p, now + ttl)];
      status := status[j := Stored("pending", now + ttl)];
      pending := pending + [j];
    }

    method GetNextJob(now: real) returns (r: Option<(Id, Payload)>)
      modifies this
      ensures (State(), r) == Pull(old(State()), ttl, now)
      ensures data == old(data) && results == old(results)
      ensures old(pending) != [] ==> pending == old(pending)[1..]
      ensures r.Some? <==> old(pending) != [] && old(pending)[0] in data && now < data[old(pending)[0]].expires
      ensures r.Some? ==>
                && r.value == (old(pending)[0], data[old(pending)[0]].value)
                && processing == old(processing) + {r.value.0} && dead == old(dead)
                && backup == old(backup)[r.value.0 := Stored(r.value.1, now + 2.0 * ttl)]
                && status == old(status)[r.value.0 := Stored("processing", now + ttl)]
      ensures r.None? ==> processing == old(processing) && backup == old(backup) && status == old(status)
      ensures old(pending) == [] ==> pending == [] && dead == old(dead)
      ensures r.None? && old(pending) != [] ==> dead == old(dead) + [old(pending)[0]]
    {
      if pending == [] {
        return None;
      }
      var j := pending[0];
      pending := pending[1..];
      if !Live(data, j, now) {
        dead := dead + [j];
        return None;
      }
      var p := data[j].value;
      processing := processing + {j};
      status := status[j := Stored("processing", now + ttl)];
      backup := backup[j := Stored(p, now + 2.0 * ttl)];
      return Some((j, p));
    }

    method CompleteJob(now: real, j: Id, result: Payload, outcome: string)
      modifies this
      ensures State() == Complete(old(State()), ttl, now, j, result, outcome)
      ensures results == old(results)[j := Stored(result, now + ttl)] && status == old(status)[j := Stored(outcome, now + ttl)]
      ensures processing == old(processing) - {j} && backup == old(backup) - {j}
      ensures pending == old(pending) && data == old(data) && dead == old(dead)
    {
      results := results[j := Stored(result, now + ttl)];
      status := status[j := Stored(outcome, now + ttl)];
      processing := processing - {j};
      backup := backup - {j};
    }

    method VisitJob(now: real, j: Id) returns (requeued: bool)
      modifies this
      ensures (State(), requeued) == Visit(old(State()), ttl, now, j)
      ensures results == old(results) && dead == old(dead)
      ensures requeued <==> !Live(old(data), j, now) && Live(old(backup), j, now)
      ensures processing == if Live(old(data), j, now) then old(processing) else old(processing) - {j}
      ensures !requeued ==> pending == old(pending) && data == old(data) && backup == old(backup) && status == old(status)
      ensures requeued ==>
                && pending == old(pending) + [j] && backup == old(backup) - {j}
                && status == old(status)[j := Stored("pending", now + ttl)]
                && j in data && data == old(data)[j := data[j]] && data[j].expires == now + ttl
                && SameButToken(old(backup)[j].value, data[j].value)
    {
      if Live(data, j, now) {
        return false;
      }
      if Live(backup, j, now) {
        data := data[j := Stored(Strip(backup[j].value), now + ttl)];
        status := status[j := Stored("pending", now + ttl)];
        pending := pending + [j];
        processing := processing - {j};
        backup := backup - {j};
        return true;
      }
      processing := processing - {j};
      return false;
    }

    /** A whole scan with no other client in between, whatever order the set is listed in. */
    method ReclaimStaleJobs(now: real) returns (reclaimed: nat)
      modifies this
      ensures Scanned(old(State()), State(), ttl, now, old(processing), reclaimed)
      ensures forall j :: j in old(processing) && !Live(old(data), j, now) && Live(old(backup), j, now) ==>
                && j in data && data[j].expires == now + ttl && SameButToken(old(backup)[j].value, data[j].value)
                && j in status && status[j] == Stored("pending", now + ttl)
      ensures forall j :: j in data && !(j in old(processing) && !Live(old(data), j, now) && Live(old(backup), j, now)) ==>
                j in old(data) && data[j] == old(data)[j]
    {
      hide Scanned;
      hide Visit;
      var todo := processing;
      reclaimed := 0;
      ghost var done: set<Id> := {};
      StartScan(State(), ttl, now);
      while todo != {}
        invariant done !! todo && done + todo == old(processing)
        invariant Scanned(old(State()), State(), ttl, now, done, reclaimed)
        decreases todo
      {
        var j :| j in todo;
        VisitExtends(old(State()), State(), ttl, now, done, reclaimed, j);
        var requeued := VisitJob(now, j);
        if requeued {
          reclaimed := reclaimed + 1;
        }
        todo := todo - {j};
        done := done + {j};
      }
      assert done == old(processing);
      ScanRestores(old(State()), State(), ttl, now, reclaimed);
    }
  }

  /** Processing jobs whose data has expired but whose backup has not. */
  function Stale(k: Keys, now: real): set<Id> {
    set j | j in k.processing && !Live(k.data, j, now) && Live(k.backup, j, now)
  }

  /** The processing jobs that stay when the jobs `done` are scanned. */
  function Staying(k: Keys, now: real, done: set<Id>): set<Id> {
    set j | j in k.processing && (j !in done || Live(k.data, j, now))
  }

  function Restored(k: Keys, ttl: real, now: real, stale: set<Id>): map<Id, Stored<Payload>>
    requires stale <= k.backup.Keys
  {
    k.data + (map j | j in stale :: Stored(Strip(k.backup[j].value), now + ttl))
  }

  function Requeued(k: Keys, ttl: real, now: real, stale: set<Id>): map<Id, Stored<string>> {
    k.status + (map j | j in stale :: Stored("pending", now + ttl))
  }

  /** The keys k after scanning the jobs `done` of the keys k0: exactly those whose data has
      expired leave the processing set; those of them with a live backup, n in number, are
      appended to the pending list once each and restored without the token. */
  ghost predicate Scanned(k0: Keys, k: Keys, ttl: real, now: real, done: set<Id>, n: nat) {
    var stale := Stale(k0, now) * done;
    && k.processing == Staying(k0, now, done)
    && n == |stale|
    && k0.pending <= k.pending
    && multiset(k.pending[|k0.pending|..]) == multiset(stale)
    && k.backup == k0.backup - stale
    && k.data == Restored(k0, ttl, now, stale)
    && k.status == Requeued(k0, ttl, now, stale)
    && k.results == k0.results && k.dead == k0.dead
  }

  /** What a whole scan writes, entry by entry. */
  lemma ScanRestores(k0: Keys, k: Keys, ttl: real, now: real, n: nat)
    requires Scanned(k0, k, ttl, now, k0.processing, n)
    ensures forall j :: j in k0.processing && !Live(k0.data, j, now) && Live(k0.backup, j, now) ==>
              && j in k.data && k.data[j].expires == now + ttl && SameButToken(k0.backup[j].value, k.data[j].value)
              && j in k.status && k.status[j] == Stored("pending", now + ttl)
    ensures forall j :: j in k.data && !(j in k0.processing && !Live(k0.data, j, now) && Live(k0.backup, j, now)) ==>
              j in k0.data && k.data[j] == k0.data[j]
  {
    assert Stale(k0, now) * k0.processing == Stale(k0, now);
    forall j | j in Stale(k0, now) ensures SameButToken(k0.backup[j].value, Strip(k0.backup[j].value)) {
      StripDropsToken(k0.backup[j].value);
    }
    hide Strip;
  }

  lemma StripDropsToken(p: Payload)
    ensures SameButToken(p, Strip(p))
  {
  }

  lemma StartScan(k: Keys, ttl: real, now: real)
    ensures Scanned(k, k, ttl, now, {}, 0)
  {
    assert Stale(k, now) * {} == {};
  }

  lemma VisitExtends(k0: Keys, k: Keys, ttl: real, now: real, done: set<Id>, n: nat, j: Id)
    requires Scanned(k0, k, ttl, now, done, n) && j in k0.processing && j !in done
    ensures Scanned(k0, Visit(k, ttl, now, j).0, ttl, now, done + {j}, if Visit(k, ttl, now, j).1 then n + 1 else n)
  {
    var stale := Stale(k0, now) * done;
    SameFreshness(k0, k, ttl, now, stale, j);
    if Visit(k, ttl, now, j).1 {
      RequeueExtends(k0, k, ttl, now, done, n, j);
    } else {
      StayingExtends(k0, now, done, j);
      hide Staying;
      hide Restored;
      hide Requeued;
      assert Stale(k0, now) * (done + {j}) == stale;
    }
  }

  lemma RequeueExtends(k0: Keys, k: Keys, ttl: real, now: real, done: set<Id>, n: nat, j: Id)
    requires Scanned(k0, k, ttl, now, done, n) && j in Stale(k0, now) && j !in done && j in k.backup
    requires k.backup[j] == k0.backup[j] && Visit(k, ttl, now, j).1
    ensures Scanned(k0, Visit(k, ttl, now, j).0, ttl, now, done + {j}, n + 1)
  {
    hide Staying;
    hide Restored;
    hide Requeued;
    hide Strip;
    var stale, stale' := Stale(k0, now) * done, Stale(k0, now) * (done + {j});
    assert stale' == stale + {j};
    assert !Live(k0.data, j, now);
    StayingExtends(k0, now, done, j);
    RestoredExtends(k0, ttl, now, stale, j);
    RequeuedExtends(k0, ttl, now, stale, j);
    PendingExtends(k0.pending, k.pending, stale, j);
    assert k0.backup - stale' == k0.backup - stale - {j};
  }

  lemma SameFreshness(k0: Keys, k: Keys, ttl: real, now: real, stale: set<Id>, j: Id)
    requires stale <= k0.backup.Keys && j !in stale
    requires k.data == Restored(k0, ttl, now, stale) && k.backup == k0.backup - stale
    ensures Live(k.data, j, now) == Live(k0.data, j, now)
    ensures Live(k.backup, j, now) == Live(k0.backup, j, now)
    ensures j in k0.backup ==> j in k.backup && k.backup[j] == k0.backup[j]
  {
  }

  lemma StayingExtends(k: Keys, now: real, done: set<Id>, j: Id)
    requires j in k.processing && j !in done
    ensures Staying(k, now, done + {j})
         == if Live(k.data, j, now) then Staying(k, now, done) else Staying(k, now, done) - {j}
  {
  }

  lemma RestoredExtends(k: Keys, ttl: real, now: real, stale: set<Id>, j: Id)
    requires stale + {j} <= k.backup.Keys && j !in stale
    ensures Restored(k, ttl, now, stale + {j})
         == Restored(k, ttl, now, stale)[j := Stored(Strip(k.backup[j].value), now + ttl)]
  {
    hide Strip;
  }

  lemma RequeuedExtends(k: Keys, ttl: real, now: real, stale: set<Id>, j: Id)
    ensures Requeued(k, ttl, now, stale + {j}) == Requeued(k, ttl, now, stale)[j := Stored("pending", now + ttl)]
  {
  }

  lemma PendingExtends(p0: seq<Id>, p: seq<Id>, stale: set<Id>, j: Id)
    requires p0 <= p && multiset(p[|p0|..]) == multiset(stale) && j !in stale
    ensures p0 <= p + [j] && multiset((p + [j])[|p0|..]) == multiset(stale + {j})
  {
    assert (p + [j])[|p0|..] == p[|p0|..] + [j];
    assert multiset(stale + {j}) == multiset(stale) + multiset{j};
  }
}
