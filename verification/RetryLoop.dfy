/** The memory worker's loop (services/memory_worker/memory_worker.py) and the retry protocol it
    uses (shared/dlq.py).

    A processing attempt is identified by its message and the attempts counted before it, because
    every retry raises the count; `outcome` says how each attempt goes, so it ranges over all
    patterns of success, transient and permanent failure. */
module RetryLoop {

  const MAX_RETRIES := 3

  /** A queue entry: a message with its count of attempts (0 when absent), or text that is not a
      JSON object. */
  datatype Raw = Message(id: string, attempts: int) | Garbled

  datatype Outcome = Success | Transient | Permanent

  datatype Attempt = Attempt(id: string, count: int)

  type Outcomes = Attempt -> Outcome

  // ---------------------------------------------------------------- one message on its own

  /** After a failed attempt the message is queued again; otherwise it goes to the dead letters. */
  predicate Retries(a: Attempt, outcome: Outcomes) {
    match outcome(a)
    case Success => false
    case Transient => a.count + 1 < MAX_RETRIES
    case Permanent => a.count + 1 < 0
  }

  /** An upper bound on the attempts that remain, this one included. */
  function Remaining(count: int): nat {
    if count < MAX_RETRIES then MAX_RETRIES - count else 1
  }

  /** The attempts made if the message were retried at once, with no queue. */
  function Attempts(a: Attempt, outcome: Outcomes): seq<Attempt>
    decreases Remaining(a.count)
  {
    [a] + (if Retries(a, outcome) then Attempts(a.(count := a.count + 1), outcome) else [])
  }

  function LastAttempt(a: Attempt, outcome: Outcomes): Attempt
    decreases Remaining(a.count)
  {
    if Retries(a, outcome) then LastAttempt(a.(count := a.count + 1), outcome) else a
  }

  function DoneAlone(a: Attempt, outcome: Outcomes): multiset<string> {
    if outcome(LastAttempt(a, outcome)).Success? then multiset{a.id} else multiset{}
  }

  /** The dead letter carries the count after the last attempt. */
  function DeadAlone(a: Attempt, outcome: Outcomes): multiset<Attempt> {
    var last := LastAttempt(a, outcome);
    if outcome(last).Success? then multiset{} else multiset{last.(count := last.count + 1)}
  }

  // ---------------------------------------------------------------- a whole queue

  /** What becomes of one or more queue entries: the attempts made, what is done and what is dead. */
  datatype Fate = Fate(made: multiset<Attempt>, done: multiset<string>, dead: multiset<Attempt>)

  const NOTHING := Fate(multiset{}, multiset{}, multiset{})

  function Both(a: Fate, b: Fate): Fate {
    Fate(a.made + b.made, a.done + b.done, a.dead + b.dead)
  }

  function FateAlone(a: Attempt, outcome: Outcomes): Fate {
    Fate(multiset(Attempts(a, outcome)), DoneAlone(a, outcome), DeadAlone(a, outcome))
  }

  function FateOf(raw: Raw, outcome: Outcomes): Fate {
    if raw.Message? then FateAlone(Attempt(raw.id, raw.attempts), outcome) else NOTHING
  }

  /** Every entry fares as if it were alone. */
  function FateOfAll(queue: seq<Raw>, outcome: Outcomes): Fate {
    if queue == [] then NOTHING else Both(FateOf(queue[0], outcome), FateOfAll(queue[1..], outcome))
  }

  function Cost(raw: Raw): nat {
    if raw.Message? then Remaining(raw.attempts) else 1
  }

  function Budget(queue: seq<Raw>): nat {
    if queue == [] then 0 else Cost(queue[0]) + Budget(queue[1..])
  }

  lemma BothIsAssociative(a: Fate, b: Fate, c: Fate)
    ensures Both(Both(a, b), c) == Both(a, Both(b, c))
  {
  }

  lemma BothNothing(a: Fate)
    ensures Both(a, NOTHING) == a == Both(NOTHING, a)
  {
  }

  lemma {:induction false} FateSnoc(queue: seq<Raw>, raw: Raw, outcome: Outcomes)
    ensures Budget(queue + [raw]) == Budget(queue) + Cost(raw)
    ensures FateOfAll(queue + [raw], outcome) == Both(FateOfAll(queue, outcome), FateOf(raw, outcome))
  {
    hide FateOf;
    hide Both;
    hide Cost;
    hide NOTHING;
    if queue == [] {
      BothNothing(FateOf(raw, outcome));
      assert queue + [raw] == [raw] && [raw][1..] == [];
    } else {
      FateSnoc(queue[1..], raw, outcome);
      assert (queue + [raw])[1..] == queue[1..] + [raw];
      BothIsAssociative(FateOf(queue[0], outcome), FateOfAll(queue[1..], outcome), FateOf(raw, outcome));
    }
  }

  // ---------------------------------------------------------------- the worker

  class Worker {
    var queue: seq<Raw>
    var dead: seq<Attempt>
    var done: seq<string>
    var log: seq<Attempt>

    constructor (queue: seq<Raw>)
      ensures this.queue == queue && dead == [] && done == [] && log == []
    {
      this.queue, dead, done, log := queue, [], [], [];
    }

    method EnqueueForRetry(id: string, attempts: int, maxRetries: int)
      modifies `queue, `dead
      ensures attempts + 1 >= maxRetries ==> dead == old(dead) + [Attempt(id, attempts + 1)] && queue == old(queue)
      ensures attempts + 1 < maxRetries ==> queue == old(queue) + [Message(id, attempts + 1)] && dead == old(dead)
    {
      var count := attempts + 1;
      if count >= maxRetries {
        dead := dead + [Attempt(id, count)];
      } else {
        queue := queue + [Message(id, count)];
      }
    }

    /** What has happened so far. */
    ghost function SoFar(): Fate
      reads `log, `done, `dead
    {
      Summary(log, done, dead)
    }

    /** Processes a popped message. */
    method Process(id: string, attempts: int, outcome: Outcomes)
      modifies this
      ensures var a := Attempt(id, attempts);
              && queue == old(queue) + (if Retries(a, outcome) then [Message(id, attempts + 1)] else [])
              && SoFar() == Both(old(SoFar()), if Retries(a, outcome) then Made(a) else Ended(a, outcome))
    {
      hide Summary;
      hide Both;
      var a := Attempt(id, attempts);
      SummaryGrows(log, done, dead, a, outcome);
      log := log + [a];
      match outcome(a) {
        case Success => done := done + [id];
        case Transient => EnqueueForRetry(id, attempts, MAX_RETRIES);
        case Permanent => EnqueueForRetry(id, attempts, 0);
      }
    }

    /** One round of the loop on a queue that is not empty. */
    method Round(outcome: Outcomes)
      requires queue != []
      modifies this
      ensures Budget(queue) < old(Budget(queue))
      ensures Both(SoFar(), FateOfAll(queue, outcome)) == old(Both(SoFar(), FateOfAll(queue, outcome)))
    {
      hide *;
      ghost var before := SoFar();
      var raw := queue[0];
      PopFate(queue, outcome);
      queue := queue[1..];
      match raw
      case Message(id, attempts) =>
        RoundBalances(before, Attempt(id, attempts), queue, outcome);
        Process(id, attempts, outcome);
      case Garbled =>
        GarbledIsDropped(FateOfAll(queue, outcome), outcome);
    }

    /** The loop, until nothing is left to pop. Messages that wait in line and come back end exactly
        as if each had been retried on its own, and exactly those attempts are made. */
    method Drain(outcome: Outcomes)
      requires dead == [] && done == [] && log == []
      modifies this
      ensures queue == []
      ensures SoFar() == FateOfAll(old(queue), outcome)
    {
      hide FateOf;
      BothNothing(FateOfAll(queue, outcome));
      while queue != []
        invariant Both(SoFar(), FateOfAll(queue, outcome)) == FateOfAll(old(queue), outcome)
        decreases Budget(queue)
      {
        Round(outcome);
      }
      BothNothing(SoFar());
    }
  }

  lemma PopFate(queue: seq<Raw>, outcome: Outcomes)
    requires queue != []
    ensures FateOfAll(queue, outcome) == Both(FateOf(queue[0], outcome), FateOfAll(queue[1..], outcome))
    ensures Budget(queue) == Cost(queue[0]) + Budget(queue[1..])
  {
  }

  function Summary(log: seq<Attempt>, done: seq<string>, dead: seq<Attempt>): Fate {
    Fate(multiset(log), multiset(done), multiset(dead))
  }

  lemma SummaryGrows(log: seq<Attempt>, done: seq<string>, dead: seq<Attempt>, a: Attempt, outcome: Outcomes)
    ensures Summary(log + [a], done, dead) == Both(Summary(log, done, dead), Made(a))
    ensures outcome(a).Success? ==> Summary(log + [a], done + [a.id], dead) == Both(Summary(log, done, dead), Ended(a, outcome))
    ensures !outcome(a).Success? ==>
              Summary(log + [a], done, dead + [a.(count := a.count + 1)]) == Both(Summary(log, done, dead), Ended(a, outcome))
  {
    SnocMultiset(log, a);
    SnocMultiset(done, a.id);
    SnocMultiset(dead, a.(count := a.count + 1));
  }

  lemma SnocMultiset<T>(s: seq<T>, x: T)
    ensures multiset(s + [x]) == multiset(s) + multiset{x}
  {
  }

  lemma GarbledIsDropped(rest: Fate, outcome: Outcomes)
    ensures Both(FateOf(Garbled, outcome), rest) == rest && Cost(Garbled) == 1
  {
    BothNothing(rest);
  }

  /** Processing a message moves part of its fate from what is to come to what has happened, and
      uses up part of the budget. */
  lemma RoundBalances(before: Fate, a: Attempt, queue: seq<Raw>, outcome: Outcomes)
    ensures var raw := Message(a.id, a.count);
            var after := if Retries(a, outcome) then Made(a) else Ended(a, outcome);
            var queue' := queue + if Retries(a, outcome) then [Message(a.id, a.count + 1)] else [];
            && Both(Both(before, after), FateOfAll(queue', outcome)) == Both(before, Both(FateOf(raw, outcome), FateOfAll(queue, outcome)))
            && Budget(queue') < Cost(raw) + Budget(queue)
  {
    hide FateAlone;
    hide FateOfAll;
    hide Budget;
    hide Both;
    hide Made;
    hide Ended;
    var rest := FateOfAll(queue, outcome);
    if Retries(a, outcome) {
      var again := a.(count := a.count + 1);
      FateSnoc(queue, Message(again.id, again.count), outcome);
      AloneRetried(a, outcome);
      RegroupRetry(before, Made(a), FateAlone(again, outcome), rest);
    } else {
      assert queue + [] == queue;
      AloneEnded(a, outcome);
      BothIsAssociative(before, Ended(a, outcome), rest);
    }
  }

  lemma RegroupRetry(before: Fate, one: Fate, again: Fate, rest: Fate)
    ensures Both(Both(before, one), Both(rest, again)) == Both(before, Both(Both(one, again), rest))
  {
  }

  /** An attempt that was made, and nothing else. */
  function Made(a: Attempt): Fate {
    Fate(multiset{a}, multiset{}, multiset{})
  }

  /** An attempt that was the last. */
  function Ended(a: Attempt, outcome: Outcomes): Fate {
    if outcome(a).Success? then Fate(multiset{a}, multiset{a.id}, multiset{})
    else Fate(multiset{a}, multiset{}, multiset{a.(count := a.count + 1)})
  }

  lemma AloneRetried(a: Attempt, outcome: Outcomes)
    requires Retries(a, outcome)
    ensures FateAlone(a, outcome) == Both(Made(a), FateAlone(a.(count := a.count + 1), outcome))
  {
    AttemptsUnfold(a, outcome);
    SameEnd(a, outcome);
    hide Attempts;
    hide DoneAlone;
    hide DeadAlone;
  }

  lemma SameEnd(a: Attempt, outcome: Outcomes)
    requires Retries(a, outcome)
    ensures var again := a.(count := a.count + 1);
            DoneAlone(a, outcome) == DoneAlone(again, outcome) && DeadAlone(a, outcome) == DeadAlone(again, outcome)
  {
    assert LastAttempt(a, outcome) == LastAttempt(a.(count := a.count + 1), outcome);
    hide LastAttempt;
  }

  lemma AloneEnded(a: Attempt, outcome: Outcomes)
    requires !Retries(a, outcome)
    ensures FateAlone(a, outcome) == Ended(a, outcome)
  {
    assert Attempts(a, outcome) == [a] && LastAttempt(a, outcome) == a;
    hide Attempts;
    hide LastAttempt;
  }

  lemma AttemptsUnfold(a: Attempt, outcome: Outcomes)
    requires Retries(a, outcome)
    ensures multiset(Attempts(a, outcome)) == multiset{a} + multiset(Attempts(a.(count := a.count + 1), outcome))
  {
  }

  // ---------------------------------------------------------------- what becomes of a message

  /** The attempts of one message count up by one and end with the last; there are at most three
      for a fresh message. */
  lemma {:induction false} AttemptsAreBounded(a: Attempt, outcome: Outcomes)
    ensures var made := Attempts(a, outcome);
            && 1 <= |made| <= Remaining(a.count)
            && (forall i :: 0 <= i < |made| ==> made[i] == Attempt(a.id, a.count + i))
            && made[|made| - 1] == LastAttempt(a, outcome)
    decreases Remaining(a.count)
  {
    if Retries(a, outcome) {
      AttemptsAreBounded(a.(count := a.count + 1), outcome);
    }
  }

  /** A fresh message is done iff one of its first three attempts succeeds after transient failures
      only. */
  lemma FreshDoneIff(id: string, outcome: Outcomes)
    ensures DoneAlone(Attempt(id, 0), outcome) == multiset{id} <==>
              exists k :: 0 <= k < MAX_RETRIES && outcome(Attempt(id, k)).Success? && forall j :: 0 <= j < k ==> outcome(Attempt(id, j)).Transient?
  {
    var a, b, c := Attempt(id, 0), Attempt(id, 1), Attempt(id, 2);
    assert LastAttempt(a, outcome) == if Retries(a, outcome) then LastAttempt(b, outcome) else a;
    assert LastAttempt(b, outcome) == if Retries(b, outcome) then LastAttempt(c, outcome) else b;
    assert LastAttempt(c, outcome) == c;
  }

  /** A message that is not done becomes one dead letter: with 3 attempts counted or more if the
      last failure was transient. */
  lemma {:induction false} LastAttemptIsFinal(a: Attempt, outcome: Outcomes)
    ensures var last := LastAttempt(a, outcome);
            && last.id == a.id && last.count >= a.count && !Retries(last, outcome)
            && (outcome(last).Transient? ==> last.count + 1 >= MAX_RETRIES)
    decreases Remaining(a.count)
  {
    if Retries(a, outcome) {
      LastAttemptIsFinal(a.(count := a.count + 1), outcome);
    }
  }

  /** What each outcome means for the message: a success or a permanent failure of a message that was
      not sent with a negative count ends it, a transient failure ends it only at the third attempt;
      one that ends without success is a dead letter with the failed attempt counted. */
  lemma OutcomeDecides(a: Attempt, outcome: Outcomes)
    ensures outcome(a).Success? || (outcome(a).Permanent? && a.count >= 0) || (outcome(a).Transient? && a.count >= 2) ==> LastAttempt(a, outcome) == a
    ensures outcome(a).Transient? && a.count < 2 ==> LastAttempt(a, outcome) == LastAttempt(Attempt(a.id, a.count + 1), outcome)
    ensures LastAttempt(a, outcome) == a && !outcome(a).Success? ==>
              DoneAlone(a, outcome) == multiset{} && DeadAlone(a, outcome) == multiset{Attempt(a.id, a.count + 1)}
    ensures LastAttempt(a, outcome) == a && outcome(a).Success? ==>
              DoneAlone(a, outcome) == multiset{a.id} && DeadAlone(a, outcome) == multiset{}
  {
  }

  predicate DistinctIds(queue: seq<Raw>) {
    forall i, j :: 0 <= i < j < |queue| && queue[i].Message? && queue[j].Message? ==> queue[i].id != queue[j].id
  }

  /** Nothing happened to the message. */
  ghost predicate Untouched(f: Fate, id: string) {
    f.done[id] == 0 && forall n: int :: f.made[Attempt(id, n)] == 0 && f.dead[Attempt(id, n)] == 0
  }

  /** The message is done or dead exactly once, as its last attempt decides, and each attempt from
      the first count to the last was made exactly once. */
  ghost predicate EndsOnce(f: Fate, first: Attempt, last: Attempt, success: bool) {
    && f.done[first.id] == (if success then 1 else 0)
    && (forall n: int :: f.dead[Attempt(first.id, n)] == if !success && n == last.count + 1 then 1 else 0)
    && (forall n: int :: f.made[Attempt(first.id, n)] == if first.count <= n <= last.count then 1 else 0)
  }

  lemma {:induction false} OwnAttempts(a: Attempt, outcome: Outcomes, n: int)
    ensures multiset(Attempts(a, outcome))[Attempt(a.id, n)] == if a.count <= n <= LastAttempt(a, outcome).count then 1 else 0
    decreases Remaining(a.count)
  {
    if Retries(a, outcome) {
      OwnAttempts(a.(count := a.count + 1), outcome, n);
      LastAttemptIsFinal(a.(count := a.count + 1), outcome);
      AttemptsUnfold(a, outcome);
    }
  }

  lemma EndsOnceAlone(a: Attempt, outcome: Outcomes)
    ensures var last := LastAttempt(a, outcome);
            EndsOnce(FateAlone(a, outcome), a, last, outcome(last).Success?)
  {
    hide Attempts;
    hide LastAttempt;
    LastAttemptIsFinal(a, outcome);
    forall n: int ensures multiset(Attempts(a, outcome))[Attempt(a.id, n)] == if a.count <= n <= LastAttempt(a, outcome).count then 1 else 0 {
      OwnAttempts(a, outcome, n);
    }
  }

  lemma UntouchedByOther(raw: Raw, id: string, outcome: Outcomes)
    requires raw.Message? ==> raw.id != id
    ensures Untouched(FateOf(raw, outcome), id)
  {
    if raw.Message? {
      var a := Attempt(raw.id, raw.attempts);
      AttemptsAreBounded(a, outcome);
      LastAttemptIsFinal(a, outcome);
      hide Attempts;
      hide LastAttempt;
      forall n: int ensures multiset(Attempts(a, outcome))[Attempt(id, n)] == 0 {
        assert Attempt(id, n) !in Attempts(a, outcome);
      }
    }
  }

  lemma {:induction false} UntouchedByOthers(queue: seq<Raw>, id: string, outcome: Outcomes)
    requires forall i :: 0 <= i < |queue| && queue[i].Message? ==> queue[i].id != id
    ensures Untouched(FateOfAll(queue, outcome), id)
  {
    hide FateOf;
    if queue != [] {
      UntouchedByOthers(queue[1..], id, outcome);
      UntouchedByOther(queue[0], id, outcome);
    }
  }

  lemma UntouchedAdds(f: Fate, g: Fate, first: Attempt, last: Attempt, success: bool)
    requires EndsOnce(f, first, last, success) && Untouched(g, first.id)
    ensures EndsOnce(Both(f, g), first, last, success) && EndsOnce(Both(g, f), first, last, success)
  {
  }

  /** In a queue of messages with distinct ids each one is done or dead exactly once. */
  lemma {:induction false} EachMessageEndsOnce(queue: seq<Raw>, i: nat, outcome: Outcomes)
    requires i < |queue| && queue[i].Message? && DistinctIds(queue)
    ensures var a := Attempt(queue[i].id, queue[i].attempts);
            var last := LastAttempt(a, outcome);
            EndsOnce(FateOfAll(queue, outcome), a, last, outcome(last).Success?)
  {
    hide FateAlone;
    hide LastAttempt;
    hide EndsOnce;
    hide Untouched;
    hide Both;
    var a := Attempt(queue[i].id, queue[i].attempts);
    var last := LastAttempt(a, outcome);
    if i == 0 {
      EndsOnceAlone(a, outcome);
      UntouchedByOthers(queue[1..], a.id, outcome);
      UntouchedAdds(FateOf(queue[0], outcome), FateOfAll(queue[1..], outcome), a, last, outcome(last).Success?);
    } else {
      EachMessageEndsOnce(queue[1..], i - 1, outcome);
      UntouchedByOther(queue[0], a.id, outcome);
      UntouchedAdds(FateOfAll(queue[1..], outcome), FateOf(queue[0], outcome), a, last, outcome(last).Success?);
    }
  }

  function Messages(queue: seq<Raw>): nat {
    if queue == [] then 0 else (if queue[0].Message? then 1 else 0) + Messages(queue[1..])
  }

  /** Nothing is lost or added: as many messages are done or dead as there were, and no more attempts
      are made than the messages had left. */
  lemma {:induction false} EveryMessageIsAccountedFor(queue: seq<Raw>, outcome: Outcomes)
    ensures var f := FateOfAll(queue, outcome);
            |f.done| + |f.dead| == Messages(queue) && |f.made| <= Budget(queue)
  {
    if queue != [] {
      EveryMessageIsAccountedFor(queue[1..], outcome);
      if queue[0].Message? {
        AttemptsAreBounded(Attempt(queue[0].id, queue[0].attempts), outcome);
      }
      hide Attempts;
      hide LastAttempt;
    }
  }
}
