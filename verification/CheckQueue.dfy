/** The queue of script checks that a master thread shares with worker threads. Each locked
    region is one atomic step, and so is each check that a thread runs on its own batch. */
module CheckQueues {

  datatype Outcome = Passed | Failed(error: int)

  /** A check, with what it will return when it is run. */
  datatype Check = Check(id: nat, outcome: Outcome)

  datatype Place =
    | Outside                  // not in the loop; only the master ever is, between rounds
    | Arriving                 // about to take the lock for the first time
    | Looping                  // holds the lock
    | Waiting(notified: bool)  // asleep on its condition variable
    | Working                  // has taken a batch, and has released the lock

  /** A thread and the local variables of its loop. `started` says that `localResult` is of the current batch. */
  datatype Thread = Thread(place: Place, now: nat, checks: seq<Check>, doWork: bool, started: bool, localResult: Outcome) {
    /** The batch is dealt with: all its checks ran, or one failed, or there was no need. */
    predicate Finished() { place.Working? && (!doWork || (started && checks == [])) }
    predicate Holding() { place.Working? && doWork && started && localResult.Failed? }
  }

  datatype Round = Round(added: multiset<Check>, ran: multiset<Check>, result: Outcome)

  // ----- sums over threads -----

  function SumOf(threads: seq<Thread>, f: Thread -> int): int {
    if threads == [] then 0 else f(threads[0]) + SumOf(threads[1..], f)
  }

  lemma {:induction false} SumUpdate(threads: seq<Thread>, i: nat, t: Thread, f: Thread -> int)
    requires i < |threads|
    ensures SumOf(threads[i := t], f) == SumOf(threads, f) - f(threads[i]) + f(t)
  {
    if i > 0 {
      assert threads[i := t][1..] == threads[1..][i - 1 := t];
      SumUpdate(threads[1..], i - 1, t, f);
    }
  }

  lemma {:induction false} SumPositive(threads: seq<Thread>, f: Thread -> int)
    requires forall t :: f(t) >= 0
    ensures SumOf(threads, f) >= 0
    ensures SumOf(threads, f) > 0 <==> exists i :: 0 <= i < |threads| && f(threads[i]) > 0
    ensures forall i :: 0 <= i < |threads| ==> f(threads[i]) <= SumOf(threads, f)
  {
    if threads != [] {
      var rest := threads[1..];
      SumPositive(rest, f);
      assert forall i :: 0 < i < |threads| ==> threads[i] == rest[i - 1];
      assert forall i :: 0 <= i < |rest| ==> rest[i] == threads[i + 1];
    }
  }

  function Taken(t: Thread): int { if t.place.Working? then t.now else 0 }
  function Asleep(t: Thread): int { if t.place.Waiting? then 1 else 0 }
  function Present(t: Thread): int { if t.place.Outside? || t.place.Arriving? then 0 else 1 }

  /** How often a check is in a thread's batch, and has neither run nor been skipped. */
  function PendingAt(c: Check): Thread -> int {
    (t: Thread) => if t.place.Working? then multiset(t.checks)[c] else 0
  }

  lemma {:induction false} SumZero(threads: seq<Thread>, f: Thread -> int)
    requires forall i :: 0 <= i < |threads| ==> f(threads[i]) == 0
    ensures SumOf(threads, f) == 0
  {
    if threads != [] {
      SumZero(threads[1..], f);
    }
  }

  // ----- what is left to do -----

  /** An upper bound on the steps until every thread sleeps. */
  function Work(queue: seq<Check>, threads: seq<Thread>): int {
    3 * |queue| + SumOf(threads, Load)
  }

  function Load(t: Thread): int {
    if t.place.Arriving? then 1 else if t.place.Working? then 1 + |t.checks| else 0
  }

  lemma WorkUpdate(queue: seq<Check>, threads: seq<Thread>, queue': seq<Check>, i: nat, t: Thread)
    requires i < |threads|
    ensures Work(queue', threads[i := t]) == Work(queue, threads) + 3 * (|queue'| - |queue|) + Load(t) - Load(threads[i])
    ensures Work(queue, threads) >= 0
  {
    SumUpdate(threads, i, t, Load);
    SumPositive(threads, Load);
  }

  // ----- what holds between any two steps -----

  ghost predicate SomeFailed(checks: multiset<Check>, error: int) {
    exists c :: c in checks && c.outcome == Failed(error)
  }

  ghost predicate AllPassed(checks: multiset<Check>) {
    forall c :: c in checks ==> c.outcome.Passed?
  }

  /** What a round must return: success just if every check that was added ran and passed, and
      otherwise the error of a check of that round. */
  ghost predicate RoundOk(r: Round) {
    && r.ran <= r.added
    && (r.result.Passed? <==> AllPassed(r.added))
    && (r.result.Passed? ==> r.ran == r.added)
    && (r.result.Failed? ==> SomeFailed(r.ran, r.result.error))
  }

  ghost predicate RoundsOk(rounds: seq<Round>) {
    forall k :: 0 <= k < |rounds| ==> RoundOk(rounds[k])
  }

  /** What a thread's own variables may be. */
  ghost predicate ThreadOk(t: Thread, result: Outcome, ran: multiset<Check>) {
    t.place.Working? ==>
      && t.now > 0
      && (!t.doWork ==> result.Failed?)
      && (!t.started ==> t.checks != [])
      && (t.Holding() ==> SomeFailed(ran, t.localResult.error) && t.checks == [])
  }

  ghost predicate ThreadsOk(threads: seq<Thread>, result: Outcome, ran: multiset<Check>) {
    forall i :: 0 <= i < |threads| ==> ThreadOk(threads[i], result, ran)
  }

  ghost predicate SomeHolding(threads: seq<Thread>) {
    exists i :: 0 <= i < |threads| && threads[i].Holding()
  }

  ghost predicate Counted(todo: int, idle: int, total: int, queue: seq<Check>, threads: seq<Thread>) {
    todo == |queue| + SumOf(threads, Taken) && idle == SumOf(threads, Asleep) && total == SumOf(threads, Present)
  }

  ghost predicate Balanced(added: int, queue: seq<Check>, threads: seq<Thread>, ran: int, skipped: int, c: Check) {
    added == multiset(queue)[c] + SumOf(threads, PendingAt(c)) + ran + skipped
  }

  /** Every check that was added is queued, in a batch, or has run or been skipped, just once. */
  ghost predicate Conserved(added: multiset<Check>, queue: seq<Check>, threads: seq<Thread>, ran: multiset<Check>, skipped: multiset<Check>) {
    forall c :: Balanced(added[c], queue, threads, ran[c], skipped[c], c)
  }

  /** Errors are of this round, and none is lost. */
  ghost predicate ResultsOk(threads: seq<Thread>, result: Outcome, ran: multiset<Check>, skipped: multiset<Check>) {
    && ThreadsOk(threads, result, ran)
    && (result.Failed? ==> SomeFailed(ran, result.error))
    && ((AllPassed(ran) && skipped == multiset{}) || result.Failed? || SomeHolding(threads))
  }

  /** A master that sleeps has been notified, or waits for a batch of a worker. */
  ghost predicate MasterOk(threads: seq<Thread>, queue: seq<Check>, todo: int) {
    && threads != []
    && (forall i :: 0 < i < |threads| ==> !threads[i].place.Outside?)
    && (threads[0].place.Waiting? ==> queue == [] && (threads[0].place.notified <==> todo == 0))
  }

  // ----- what a change of one thread does -----

  lemma CountedUpdate(todo: int, idle: int, total: int, queue: seq<Check>, threads: seq<Thread>, queue': seq<Check>, i: nat, t: Thread)
    requires i < |threads| && Counted(todo, idle, total, queue, threads)
    ensures Counted(todo + |queue'| - |queue| + Taken(t) - Taken(threads[i]), idle + Asleep(t) - Asleep(threads[i]),
                    total + Present(t) - Present(threads[i]), queue', threads[i := t])
  {
    SumUpdate(threads, i, t, Taken);
    SumUpdate(threads, i, t, Asleep);
    SumUpdate(threads, i, t, Present);
  }

  lemma AllCounted(todo: int, idle: int, total: int, queue: seq<Check>, threads: seq<Thread>, i: nat)
    requires i < |threads| && Counted(todo, idle, total, queue, threads)
    ensures |queue| + Taken(threads[i]) <= todo && idle >= 0 && total >= 0
    ensures todo == 0 && threads[i].place.Working? ==> threads[i].now == 0
  {
    SumPositive(threads, Taken);
    SumPositive(threads, Asleep);
    SumPositive(threads, Present);
  }

  /** If no check appears or disappears in one thread's step, none does. */
  lemma ConservedUpdate(added: multiset<Check>, queue: seq<Check>, threads: seq<Thread>, ran: multiset<Check>, skipped: multiset<Check>,
                        queue': seq<Check>, i: nat, t: Thread, ran': multiset<Check>, skipped': multiset<Check>)
    requires i < |threads| && Conserved(added, queue, threads, ran, skipped)
    requires forall c :: multiset(queue)[c] + PendingAt(c)(threads[i]) + ran[c] + skipped[c]
                      == multiset(queue')[c] + PendingAt(c)(t) + ran'[c] + skipped'[c]
    ensures Conserved(added, queue', threads[i := t], ran', skipped')
  {
    hide SumOf, PendingAt;
    forall c ensures Balanced(added[c], queue', threads[i := t], ran'[c], skipped'[c], c) {
      assert Balanced(added[c], queue, threads, ran[c], skipped[c], c);
      SumUpdate(threads, i, t, PendingAt(c));
    }
  }

  lemma ResultsAt(threads: seq<Thread>, result: Outcome, ran: multiset<Check>, skipped: multiset<Check>, i: nat)
    requires i < |threads| && ResultsOk(threads, result, ran, skipped)
    ensures ThreadOk(threads[i], result, ran)
  {
  }

  lemma ResultsUpdate(threads: seq<Thread>, result: Outcome, ran: multiset<Check>, skipped: multiset<Check>,
                      i: nat, t: Thread, result': Outcome, ran': multiset<Check>, skipped': multiset<Check>)
    requires i < |threads| && ResultsOk(threads, result, ran, skipped)
    requires ThreadOk(t, result', ran') && ran <= ran' && (result.Failed? ==> result' == result)
    requires result' == result || (result'.Failed? && SomeFailed(ran', result'.error))
    requires threads[i].Holding() ==> t.Holding() || result'.Failed?
    requires ((AllPassed(ran) ==> AllPassed(ran')) && skipped' == skipped) || t.Holding() || result'.Failed?
    ensures ResultsOk(threads[i := t], result', ran', skipped')
  {
    forall e | SomeFailed(ran, e) ensures SomeFailed(ran', e) {
      var c :| c in ran && c.outcome == Failed(e);
      assert c in ran';
    }
    var next := threads[i := t];
    assert ThreadsOk(next, result', ran') by {
      forall k | 0 <= k < |next| ensures ThreadOk(next[k], result', ran') {
        assert ThreadOk(threads[k], result, ran);
      }
    }
    if t.Holding() {
      assert next[i].Holding();
    } else if SomeHolding(threads) {
      var k :| 0 <= k < |threads| && threads[k].Holding();
      assert k != i ==> next[k].Holding();
    }
  }

  lemma Shares(size: nat, threads: nat)
    requires threads > 0
    ensures forall n: nat :: n * threads <= size <==> n <= size / threads
  {
    forall n: nat ensures n * threads <= size <==> n <= size / threads {
      var share := size / threads;
      assert share * threads <= size < share * threads + threads;
      if n <= share {
        assert n * threads <= share * threads;
      } else {
        assert n * threads >= (share + 1) * threads;
      }
    }
  }

  class CheckQueue {
    /** The largest batch to take at once. */
    const batchSize: nat
    var queue: seq<Check>
    /** How many threads are waiting. */
    var idle: int
    /** How many threads are in the loop. */
    var total: int
    var result: Outcome
    /** How many checks are queued or in a batch. */
    var todo: int
    /** The master first, and then the workers. */
    var threads: seq<Thread>

    /** The checks added, run and skipped since the last round ended, and the rounds that ended. */
    ghost var added: multiset<Check>
    ghost var ran: multiset<Check>
    ghost var skipped: multiset<Check>
    ghost var rounds: seq<Round>

    ghost predicate Valid()
      reads this
    {
      && MasterOk(threads, queue, todo) && Counted(todo, idle, total, queue, threads)
      && Conserved(added, queue, threads, ran, skipped) && ResultsOk(threads, result, ran, skipped)
      && RoundsOk(rounds)
    }

    constructor (batchSize: nat, workers: nat)
      ensures Valid() && |threads| == workers + 1 && threads[0].place == Outside && rounds == []
    {
      this.batchSize := batchSize;
      queue, idle, total, result, todo := [], 0, 0, Passed, 0;
      var master, worker := Thread(Outside, 0, [], false, false, Passed), Thread(Arriving, 0, [], false, false, Passed);
      threads := [master] + seq(workers, i => worker);
      added, ran, skipped, rounds := multiset{}, multiset{}, multiset{}, [];
      new;
      SumZero(threads, Taken);
      SumZero(threads, Asleep);
      SumZero(threads, Present);
      forall c ensures SumOf(threads, PendingAt(c)) == 0 {
        SumZero(threads, PendingAt(c));
      }
    }

    /** The round ends, with the result that is returned, just when the master leaves the loop. */
    twostate predicate MaybeEnded(r: Outcome)
      requires threads != [] && old(threads) != []
      reads this
    {
      if threads[0].place.Outside? && !old(threads)[0].place.Outside?
      then exists g :: rounds == old(rounds) + [Round(old(added), g, r)]
      else rounds == old(rounds) && added == old(added)
    }

    // ----- the steps -----

    /** The master adds checks, before it joins. */
    method Add(checks: seq<Check>)
      requires Valid() && threads[0].place.Outside?
      modifies this
      ensures Valid() && threads == old(threads) && rounds == old(rounds)
      ensures queue == old(queue) + checks && added == old(added) + multiset(checks) && todo == old(todo) + |checks|
    {
      hide RoundsOk, SumOf, Conserved, ResultsOk;
      AddedConserved(added, queue, threads, ran, skipped, checks);
      queue := queue + checks;
      todo := todo + |checks|;
      added := added + multiset(checks);
    }

    /** The master joins. */
    method Join()
      requires Valid() && threads[0].place.Outside?
      modifies this
      ensures Valid() && rounds == old(rounds) && added == old(added)
      ensures threads == old(threads)[0 := Thread(Arriving, 0, [], false, false, Passed)]
    {
      hide Work, RoundsOk, Counted, Conserved, ResultsOk;
      var t := Thread(Arriving, 0, [], false, false, Passed);
      CountedUpdate(todo, idle, total, queue, threads, queue, 0, t);
      ConservedUpdate(added, queue, threads, ran, skipped, queue, 0, t, ran, skipped);
      ResultsUpdate(threads, result, ran, skipped, 0, t, result, ran, skipped);
      threads := threads[0 := t];
    }

    /** A thread runs the next check of its batch; after a failure it skips the rest. */
    method RunCheck(i: nat)
      requires Valid() && i < |threads| && threads[i].place.Working? && !threads[i].Finished()
      modifies this
      ensures Valid() && rounds == old(rounds) && added == old(added) && queue == old(queue)
      ensures Work(queue, threads) < old(Work(queue, threads))
      ensures var t := old(threads)[i]; var check, rest := t.checks[0], t.checks[1..];
        && ran == old(ran) + multiset{check}
        && threads == old(threads)[i := t.(started := true, localResult := check.outcome,
             checks := if check.outcome.Passed? then rest else [])]
    {
      hide Work, RoundsOk, Counted, Conserved, ResultsOk, MasterOk;
      var t := threads[i];
      ResultsAt(threads, result, ran, skipped, i);
      var check, rest := t.checks[0], t.checks[1..];
      var passed := check.outcome.Passed?;
      var t' := t.(started := true, localResult := check.outcome, checks := if passed then rest else []);
      ghost var skipped' := skipped + if passed then multiset{} else multiset(rest);
      CountedUpdate(todo, idle, total, queue, threads, queue, i, t');
      RanConserved(added, queue, threads, ran, skipped, i, t', skipped');
      RanResults(threads, result, ran, skipped, i, t', skipped');
      RanMaster(threads, queue, todo, i, t');
      WorkUpdate(queue, threads, queue, i, t');
      threads := threads[i := t'];
      ran := ran + multiset{check};
      skipped := skipped';
    }

    /** All of `Valid`, except that the master may still have to be notified. */
    ghost predicate ValidButNotice()
      reads this
    {
      && AwaitsNotice(threads, queue, todo) && Counted(todo, idle, total, queue, threads)
      && Conserved(added, queue, threads, ran, skipped) && ResultsOk(threads, result, ran, skipped)
      && RoundsOk(rounds)
    }

    /** First thing in the locked region: account for the batch that was finished. */
    method FinishBatch(i: nat)
      requires Valid() && i < |threads| && threads[i].Finished()
      modifies this
      ensures Valid() && rounds == old(rounds) && added == old(added) && queue == old(queue)
      ensures OthersStay(old(threads), threads, i) && threads[i].place.Looping? && todo == old(todo) - old(threads)[i].now
      ensures Work(queue, threads) < old(Work(queue, threads))
    {
      hide Work, RoundsOk, Counted, Conserved, ResultsOk, MasterOk, AwaitsNotice;
      Credit(i);
      if todo == 0 && i != 0 {
        NotifiedOk(added, queue, idle, total, threads, result, ran, skipped);
        WorkUpdate(queue, threads, queue, 0, Notified(threads)[0]);
        threads := Notified(threads);
      }
    }

    method Credit(i: nat)
      requires Valid() && i < |threads| && threads[i].Finished()
      modifies this
      ensures ValidButNotice() && (todo != 0 || i == 0 ==> Valid()) && threads != []
      ensures rounds == old(rounds) && added == old(added) && queue == old(queue)
      ensures OthersStay(old(threads), threads, i) && threads[i].place.Looping? && todo == old(todo) - old(threads)[i].now
      ensures Work(queue, threads) < old(Work(queue, threads))
    {
      hide Work, RoundsOk, Counted, Conserved, ResultsOk, MasterOk, AwaitsNotice;
      var t := threads[i];
      ResultsAt(threads, result, ran, skipped, i);
      AllCounted(todo, idle, total, queue, threads, i);
      var swap := t.localResult.Failed? && result.Passed?;
      var t' := t.(place := Looping, localResult := if swap then Passed else t.localResult);
      CountedUpdate(todo, idle, total, queue, threads, queue, i, t');
      CleanedConserved(added, queue, threads, ran, skipped, i, t');
      CleanedResults(threads, result, ran, skipped, i, t');
      FinishedMaster(threads, queue, todo, i, t');
      WorkUpdate(queue, threads, queue, i, t');
      assert Taken(t') == 0 && Taken(t) == t.now && Asleep(t') == Asleep(t) && Present(t') == Present(t) && Load(t') < Load(t);
      OnlyOne(threads, i, t');
      hide OthersStay, ThreadOk, Taken, Asleep, Present, Load;
      var next := threads[i := t'];
      assert next[i] == t' && |next| == |threads| && Counted(todo - t.now, idle, total, queue, next);
      assert Work(queue, next) < Work(queue, threads);
      threads, todo, result := next, todo - t.now, if swap then t.localResult else result;
      skipped := skipped + multiset(t.checks);
    }

    /** The first time that a thread has the lock. */
    method Arrive(i: nat)
      requires Valid() && i < |threads| && threads[i].place.Arriving?
      modifies this
      ensures Valid() && rounds == old(rounds) && added == old(added) && queue == old(queue)
      ensures threads == old(threads)[i := old(threads)[i].(place := Looping)]
      ensures Work(queue, threads) < old(Work(queue, threads))
    {
      hide Work, RoundsOk, Counted, Conserved, ResultsOk;
      var t := threads[i].(place := Looping);
      CountedUpdate(todo, idle, total, queue, threads, queue, i, t);
      ConservedUpdate(added, queue, threads, ran, skipped, queue, i, t, ran, skipped);
      ResultsUpdate(threads, result, ran, skipped, i, t, result, ran, skipped);
      WorkUpdate(queue, threads, queue, i, t);
      threads := threads[i := t];
      total := total + 1;
    }

    /** How many checks to take: fewer the more threads there are, but at least one. */
    function BatchSize(): (n: nat)
      requires queue != [] && total >= 0 && idle >= 0
      reads this
      ensures 1 <= n <= |queue| && n <= if batchSize == 0 then 1 else batchSize
      ensures n > 1 ==> n * (total + idle + 1) <= |queue|
      ensures n < batchSize ==> (n + 1) * (total + idle + 1) > |queue|
    {
      var share := |queue| / (total + idle + 1);
      Shares(|queue|, total + idle + 1);
      var most := if batchSize < share then batchSize else share;
      if most < 1 then 1 else most
    }

    /** Take a batch off the end of the queue. */
    method TakeBatch(i: nat)
      requires Valid() && i < |threads| && threads[i].place.Looping? && queue != []
      modifies this
      ensures Valid() && rounds == old(rounds) && added == old(added) && |threads| == |old(threads)|
      ensures Work(queue, threads) < old(Work(queue, threads))
      ensures var t := threads[i];
        && t.place.Working? && !t.started && t.checks != [] && |t.checks| == t.now
        && old(total >= 0 && idle >= 0) && t.now == old(BatchSize())
        && queue + t.checks == old(queue) && threads == old(threads)[i := t] && t.doWork == old(result).Passed?
    {
      hide Work, RoundsOk, Counted, Conserved, ResultsOk, MasterOk;
      AllCounted(todo, idle, total, queue, threads, i);
      var n := BatchSize();
      var left, checks := queue[..|queue| - n], queue[|queue| - n..];
      var t := Thread(Working, n, checks, result.Passed?, false, threads[i].localResult);
      assert queue == left + checks;
      CountedUpdate(todo, idle, total, queue, threads, left, i, t);
      TakenConserved(added, queue, threads, ran, skipped, left, i, t);
      ResultsUpdate(threads, result, ran, skipped, i, t, result, ran, skipped);
      TakenMaster(threads, queue, todo, left, i, t);
      WorkUpdate(queue, threads, left, i, t);
      threads := threads[i := t];
      queue := left;
    }

    /** Wait: the master for the last batch, a worker for work. */
    method Sleep(i: nat)
      requires Valid() && i < |threads| && threads[i].place.Looping? && queue == [] && (i == 0 ==> todo != 0)
      modifies this
      ensures Valid() && rounds == old(rounds) && added == old(added) && queue == old(queue) && todo == old(todo)
      ensures threads == old(threads)[i := old(threads)[i].(place := Waiting(false))]
      ensures Work(queue, threads) == old(Work(queue, threads))
    {
      hide Work, RoundsOk, Counted, Conserved, ResultsOk;
      var t := threads[i].(place := Waiting(false));
      CountedUpdate(todo, idle, total, queue, threads, queue, i, t);
      ConservedUpdate(added, queue, threads, ran, skipped, queue, i, t, ran, skipped);
      ResultsUpdate(threads, result, ran, skipped, i, t, result, ran, skipped);
      WorkUpdate(queue, threads, queue, i, t);
      threads := threads[i := t];
      idle := idle + 1;
    }

    /** The master returns the result of the round. */
    method Return() returns (r: Outcome)
      requires Valid() && threads != [] && threads[0].place.Looping? && queue == [] && todo == 0
      modifies this
      ensures Valid() && rounds == old(rounds) + [Round(old(added), old(ran), r)] && added == multiset{}
      ensures Work(queue, threads) == old(Work(queue, threads))
      ensures threads == old(threads)[0 := old(threads)[0].(place := Outside)]
    {
      hide Work, Counted, Conserved, ResultsOk, RoundOk, RoundsOk, MasterOk;
      var t := threads[0].(place := Outside);
      AllIdle(todo, idle, total, queue, threads, result, ran, skipped);
      RoundEnds(added, queue, threads, result, ran, skipped);
      CountedUpdate(todo, idle, total, queue, threads, queue, 0, t);
      NewRound(queue, threads[0 := t]);
      ReturnMaster(threads, queue, todo, t);
      RoundsAppend(rounds, Round(added, ran, result));
      WorkUpdate(queue, threads, queue, 0, t);
      r := result;
      rounds := rounds + [Round(added, ran, result)];
      result, total, threads := Passed, total - 1, threads[0 := t];
      added, ran, skipped := multiset{}, multiset{}, multiset{};
    }

    /** The rest of a locked region: take work, sleep, or return. */
    method Proceed(i: nat) returns (r: Outcome)
      requires Valid() && i < |threads| && threads[i].place.Looping?
      modifies this
      ensures Valid() && |threads| == |old(threads)| && !threads[i].place.Looping?
      ensures Work(queue, threads) <= old(Work(queue, threads))
      ensures OthersStay(old(threads), threads, i) && MaybeEnded(r)
      ensures threads[i].place.Outside? <==> i == 0 && old(queue) == [] && old(todo) == 0
    {
      hide Valid, Work;
      r := Passed;
      if queue != [] {
        TakeBatch(i);
      } else if i == 0 && todo == 0 {
        r := Return();
      } else {
        Sleep(i);
      }
    }

    /** A thread takes the lock: it arrives, or has finished its batch. */
    method Enter(i: nat) returns (r: Outcome)
      requires Valid() && i < |threads| && (threads[i].place.Arriving? || threads[i].Finished())
      modifies this
      ensures Valid() && |threads| == |old(threads)| && Work(queue, threads) < old(Work(queue, threads))
      ensures OthersStay(old(threads), threads, i) && !threads[i].place.Looping? && MaybeEnded(r)
    {
      hide Valid, Work;
      if threads[i].place.Working? {
        FinishBatch(i);
      } else {
        Arrive(i);
      }
      r := Proceed(i);
    }

    /** A sleeping thread wakes up, for whatever reason, and takes the lock. */
    method Wake(i: nat) returns (r: Outcome)
      requires Valid() && i < |threads| && threads[i].place.Waiting?
      modifies this
      ensures Valid() && |threads| == |old(threads)| && Work(queue, threads) <= old(Work(queue, threads))
      ensures OthersStay(old(threads), threads, i) && !threads[i].place.Looping? && MaybeEnded(r)
      ensures i == 0 && old(threads)[0].place.notified ==> threads[0].place.Outside?
    {
      hide Work;
      AllCounted(todo, idle, total, queue, threads, i);
      StopSleeping(i);
      hide Valid;
      r := Proceed(i);
    }

    method StopSleeping(i: nat)
      requires Valid() && i < |threads| && threads[i].place.Waiting?
      modifies this
      ensures Valid() && rounds == old(rounds) && added == old(added) && queue == old(queue) && todo == old(todo)
      ensures threads == old(threads)[i := old(threads)[i].(place := Looping)]
      ensures Work(queue, threads) == old(Work(queue, threads))
    {
      hide Work, RoundsOk, Counted, Conserved, ResultsOk;
      var t := threads[i].(place := Looping);
      CountedUpdate(todo, idle, total, queue, threads, queue, i, t);
      ConservedUpdate(added, queue, threads, ran, skipped, queue, i, t, ran, skipped);
      ResultsUpdate(threads, result, ran, skipped, i, t, result, ran, skipped);
      WorkUpdate(queue, threads, queue, i, t);
      threads := threads[i := t];
      idle := idle - 1;
    }

    /** While the master is in the loop, some thread can go on without waiting for anything. */
    lemma NotStuck()
      requires Valid() && !threads[0].place.Outside? && NoneLooping(threads)
      ensures exists i :: 0 <= i < |threads| && CanAct(threads, i)
    {
      if !CanAct(threads, 0) {
        assert threads[0].place == Waiting(false) && queue == [] && todo > 0 by {
          AllCounted(todo, idle, total, queue, threads, 0);
        }
        SumPositive(threads, Taken);
        var i :| 0 <= i < |threads| && Taken(threads[i]) > 0;
        assert CanAct(threads, i);
      }
    }

    /** One step of a thread that need not wait. */
    method Act(i: nat) returns (r: Outcome)
      requires Valid() && NoneLooping(threads) && i < |threads| && CanAct(threads, i)
      modifies this
      ensures Valid() && NoneLooping(threads) && |threads| == |old(threads)|
      ensures Work(queue, threads) < old(Work(queue, threads)) || threads[0].place.Outside?
      ensures Work(queue, threads) <= old(Work(queue, threads))
      ensures MaybeEnded(r)
    {
      r := Passed;
      if threads[i].place.Waiting? {
        r := Wake(i);
      } else if threads[i].place.Working? && !threads[i].Finished() {
        RunCheck(i);
      } else {
        r := Enter(i);
      }
    }

    /** Join until the round is complete, with the threads that can go on interleaved in any way. Workers that
        wake up in between, with nothing to do, are left to `Run`. */
    method Complete() returns (r: Outcome)
      requires Valid() && NoneLooping(threads) && threads[0].place.Outside?
      modifies this
      ensures Valid() && NoneLooping(threads) && threads[0].place.Outside? && |threads| == |old(threads)|
      ensures r.Passed? <==> AllPassed(old(added))
      ensures r.Failed? ==> SomeFailed(old(added), r.error)
      ensures exists g :: rounds == old(rounds) + [Round(old(added), g, r)]
    {
      hide Work, RoundOk;
      Join();
      r := Passed;
      WorkUpdate(queue, threads, queue, 0, threads[0]);
      while !threads[0].place.Outside?
        invariant Valid() && NoneLooping(threads) && |threads| == |old(threads)| && Work(queue, threads) >= 0
        invariant if threads[0].place.Outside? then exists g :: rounds == old(rounds) + [Round(old(added), g, r)]
                  else rounds == old(rounds) && added == old(added)
        decreases Work(queue, threads) + if threads[0].place.Outside? then 0 else 1
      {
        NotStuck();
        var i :| 0 <= i < |threads| && CanAct(threads, i);
        r := Act(i);
        WorkUpdate(queue, threads, queue, 0, threads[0]);
      }
      LastRound(rounds);
    }

    /** A sleeping master that has not been notified waits for a worker that has a batch. */
    lemma MasterWaits()
      requires Valid() && threads[0].place == Waiting(false)
      ensures queue == [] && todo == SumOf(threads, Taken) && exists i :: 0 < i < |threads| && threads[i].place.Working?
    {
      AllCounted(todo, idle, total, queue, threads, 0);
      SumPositive(threads, Taken);
    }

    /** Any interleaving, of any number of rounds: threads go on in any order, and wake up at any time. */
    method Run(moves: seq<Move>)
      requires Valid() && NoneLooping(threads)
      modifies this
      ensures Valid() && NoneLooping(threads) && |threads| == |old(threads)|
      ensures old(rounds) <= rounds && forall k :: 0 <= k < |rounds| ==> RoundOk(rounds[k])
    {
      hide Work, RoundOk;
      var n := 0;
      while n < |moves|
        invariant n <= |moves| && Valid() && NoneLooping(threads) && |threads| == |old(threads)| && old(rounds) <= rounds
      {
        match moves[n] {
          case More(checks) =>
            if threads[0].place.Outside? {
              Add(checks);
            }
          case Start =>
            if threads[0].place.Outside? {
              Join();
            }
          case Go(i) =>
            if i < |threads| && !threads[i].place.Outside? {
              var _ := Go(i);
            }
        }
        n := n + 1;
      }
    }

    /** One step of any thread in the loop. */
    method Go(i: nat) returns (r: Outcome)
      requires Valid() && NoneLooping(threads) && i < |threads| && !threads[i].place.Outside?
      modifies this
      ensures Valid() && NoneLooping(threads) && |threads| == |old(threads)| && MaybeEnded(r)
    {
      r := Passed;
      if threads[i].place.Waiting? {
        r := Wake(i);
      } else {
        r := Act(i);
      }
    }
  }

  /** A move of a schedule: the master adds checks, or joins, or some thread goes on. */
  datatype Move = More(checks: seq<Check>) | Start | Go(i: nat)

  lemma LastRound(rounds: seq<Round>)
    requires RoundsOk(rounds) && rounds != []
    ensures var last := rounds[|rounds| - 1];
      && (last.result.Passed? <==> AllPassed(last.added))
      && (last.result.Failed? ==> SomeFailed(last.added, last.result.error))
  {
    var last := rounds[|rounds| - 1];
    assert RoundOk(last);
    if last.result.Failed? {
      var c :| c in last.ran && c.outcome == Failed(last.result.error);
      assert c in last.added;
    }
  }

  ghost predicate NoneLooping(threads: seq<Thread>) {
    forall i :: 0 <= i < |threads| ==> !threads[i].place.Looping?
  }

  /** Other threads are as they were, except that the master may be notified. */
  ghost predicate OthersStay(was: seq<Thread>, now: seq<Thread>, i: nat) {
    && |now| == |was|
    && forall k :: 0 <= k < |now| && k != i ==>
         now[k] == was[k] || (k == 0 && was[k].place.Waiting? && now[k].place == Waiting(true))
  }

  lemma OnlyOne(threads: seq<Thread>, i: nat, t: Thread)
    requires i < |threads|
    ensures OthersStay(threads, threads[i := t], i)
  {
  }

  /** A thread that is not asleep, or is the master and has been notified. */
  predicate CanAct(threads: seq<Thread>, i: nat)
    requires i < |threads|
  {
    || threads[i].place.Arriving? || threads[i].place.Working?
    || (i == 0 && threads[0].place.Waiting? && threads[0].place.notified)
  }

  /** Wake the master up, if it sleeps. */
  function Notified(threads: seq<Thread>): seq<Thread>
    requires threads != []
  {
    if threads[0].place.Waiting? then threads[0 := threads[0].(place := Waiting(true))] else threads
  }

  lemma NotifiedOk(added: multiset<Check>, queue: seq<Check>, idle: int, total: int, threads: seq<Thread>,
                   result: Outcome, ran: multiset<Check>, skipped: multiset<Check>)
    requires AwaitsNotice(threads, queue, 0) && Counted(0, idle, total, queue, threads)
    requires Conserved(added, queue, threads, ran, skipped) && ResultsOk(threads, result, ran, skipped)
    ensures var next := Notified(threads);
      && MasterOk(next, queue, 0) && Counted(0, idle, total, queue, next)
      && Conserved(added, queue, next, ran, skipped) && ResultsOk(next, result, ran, skipped)
  {
    hide Counted, Conserved, ResultsOk;
    var master := threads[0].(place := Waiting(true));
    if threads[0].place.Waiting? {
      CountedUpdate(0, idle, total, queue, threads, queue, 0, master);
      ConservedUpdate(added, queue, threads, ran, skipped, queue, 0, master, ran, skipped);
      ResultsUpdate(threads, result, ran, skipped, 0, master, result, ran, skipped);
    }
  }

  /** As `MasterOk`, but a notification may be due. */
  ghost predicate AwaitsNotice(threads: seq<Thread>, queue: seq<Check>, todo: int) {
    && threads != []
    && (forall i :: 0 < i < |threads| ==> !threads[i].place.Outside?)
    && (threads[0].place.Waiting? ==> queue == [] && !threads[0].place.notified)
  }

  lemma RanMaster(threads: seq<Thread>, queue: seq<Check>, todo: int, i: nat, t: Thread)
    requires MasterOk(threads, queue, todo) && i < |threads| && t.place.Working?
    ensures MasterOk(threads[i := t], queue, todo)
  {
  }

  /** The master misses nothing when a batch is finished: it is not asleep, or there are others, or it is notified now. */
  lemma FinishedMaster(threads: seq<Thread>, queue: seq<Check>, todo: int, i: nat, t: Thread)
    requires MasterOk(threads, queue, todo) && i < |threads| && threads[i].place.Working? && t.place.Looping?
    requires 0 < threads[i].now <= todo
    ensures AwaitsNotice(threads[i := t], queue, todo - threads[i].now)
    ensures todo - threads[i].now > 0 || i == 0 ==> MasterOk(threads[i := t], queue, todo - threads[i].now)
  {
  }

  lemma RanConserved(added: multiset<Check>, queue: seq<Check>, threads: seq<Thread>, ran: multiset<Check>, skipped: multiset<Check>,
                     i: nat, t: Thread, skipped': multiset<Check>)
    requires i < |threads| && Conserved(added, queue, threads, ran, skipped)
    requires threads[i].place.Working? && t.place.Working? && threads[i].checks != []
    requires var check, rest := threads[i].checks[0], threads[i].checks[1..];
      && t.checks == (if check.outcome.Passed? then rest else [])
      && skipped' == skipped + if check.outcome.Passed? then multiset{} else multiset(rest)
    ensures Conserved(added, queue, threads[i := t], ran + multiset{threads[i].checks[0]}, skipped')
  {
    var check, rest := threads[i].checks[0], threads[i].checks[1..];
    assert threads[i].checks == [check] + rest;
    ConservedUpdate(added, queue, threads, ran, skipped, queue, i, t, ran + multiset{check}, skipped');
  }

  lemma RanResults(threads: seq<Thread>, result: Outcome, ran: multiset<Check>, skipped: multiset<Check>,
                   i: nat, t: Thread, skipped': multiset<Check>)
    requires i < |threads| && ResultsOk(threads, result, ran, skipped)
    requires threads[i].place.Working? && !threads[i].Finished() && threads[i].checks != []
    requires var check, rest := threads[i].checks[0], threads[i].checks[1..];
      && t == threads[i].(started := true, localResult := check.outcome, checks := if check.outcome.Passed? then rest else [])
      && (check.outcome.Passed? ==> skipped' == skipped)
    ensures ResultsOk(threads[i := t], result, ran + multiset{threads[i].checks[0]}, skipped')
  {
    var check := threads[i].checks[0];
    var ran' := ran + multiset{check};
    assert check in ran';
    assert ThreadOk(threads[i], result, ran);
    assert check.outcome.Failed? ==> SomeFailed(ran', check.outcome.error);
    ResultsUpdate(threads, result, ran, skipped, i, t, result, ran', skipped');
  }

  lemma CleanedConserved(added: multiset<Check>, queue: seq<Check>, threads: seq<Thread>, ran: multiset<Check>, skipped: multiset<Check>,
                         i: nat, t: Thread)
    requires i < |threads| && Conserved(added, queue, threads, ran, skipped) && threads[i].place.Working? && !t.place.Working?
    ensures Conserved(added, queue, threads[i := t], ran, skipped + multiset(threads[i].checks))
  {
    ConservedUpdate(added, queue, threads, ran, skipped, queue, i, t, ran, skipped + multiset(threads[i].checks));
  }

  lemma CleanedResults(threads: seq<Thread>, result: Outcome, ran: multiset<Check>, skipped: multiset<Check>, i: nat, t: Thread)
    requires i < |threads| && ResultsOk(threads, result, ran, skipped) && threads[i].Finished() && !t.place.Working?
    ensures var local := threads[i].localResult;
      ResultsOk(threads[i := t], if local.Failed? && result.Passed? then local else result, ran, skipped + multiset(threads[i].checks))
  {
    assert ThreadOk(threads[i], result, ran);
    var local := threads[i].localResult;
    var result' := if local.Failed? && result.Passed? then local else result;
    assert result'.Passed? ==> threads[i].checks == [];
    ResultsUpdate(threads, result, ran, skipped, i, t, result', ran, skipped + multiset(threads[i].checks));
  }

  lemma AddedConserved(added: multiset<Check>, queue: seq<Check>, threads: seq<Thread>, ran: multiset<Check>, skipped: multiset<Check>,
                       checks: seq<Check>)
    requires Conserved(added, queue, threads, ran, skipped)
    ensures Conserved(added + multiset(checks), queue + checks, threads, ran, skipped)
  {
    hide SumOf;
    forall c ensures Balanced((added + multiset(checks))[c], queue + checks, threads, ran[c], skipped[c], c) {
      assert Balanced(added[c], queue, threads, ran[c], skipped[c], c);
    }
  }

  lemma TakenConserved(added: multiset<Check>, queue: seq<Check>, threads: seq<Thread>, ran: multiset<Check>, skipped: multiset<Check>,
                       left: seq<Check>, i: nat, t: Thread)
    requires i < |threads| && Conserved(added, queue, threads, ran, skipped)
    requires !threads[i].place.Working? && t.place.Working? && queue == left + t.checks
    ensures Conserved(added, left, threads[i := t], ran, skipped)
  {
    ConservedUpdate(added, queue, threads, ran, skipped, left, i, t, ran, skipped);
  }

  lemma TakenMaster(threads: seq<Thread>, queue: seq<Check>, todo: int, left: seq<Check>, i: nat, t: Thread)
    requires MasterOk(threads, queue, todo) && i < |threads| && t.place.Working? && queue != []
    ensures MasterOk(threads[i := t], left, todo)
  {
  }

  /** When nothing is left to do, no thread has a batch. */
  lemma AllIdle(todo: int, idle: int, total: int, queue: seq<Check>, threads: seq<Thread>, result: Outcome, ran: multiset<Check>, skipped: multiset<Check>)
    requires Counted(todo, idle, total, queue, threads) && ResultsOk(threads, result, ran, skipped) && todo == 0
    ensures NoneWorking(threads)
  {
    forall i | 0 <= i < |threads| ensures !threads[i].place.Working? {
      AllCounted(todo, idle, total, queue, threads, i);
      assert ThreadOk(threads[i], result, ran);
    }
  }

  ghost predicate NoneWorking(threads: seq<Thread>) {
    forall i :: 0 <= i < |threads| ==> !threads[i].place.Working?
  }

  /** A round that ends has the right result. */
  lemma RoundEnds(added: multiset<Check>, queue: seq<Check>, threads: seq<Thread>, result: Outcome, ran: multiset<Check>, skipped: multiset<Check>)
    requires NoneWorking(threads) && queue == []
    requires Conserved(added, queue, threads, ran, skipped) && ResultsOk(threads, result, ran, skipped)
    ensures RoundOk(Round(added, ran, result))
  {
    hide SumOf;
    forall c ensures added[c] == ran[c] + skipped[c] {
      assert Balanced(added[c], queue, threads, ran[c], skipped[c], c);
      SumZero(threads, PendingAt(c));
    }
    assert ran <= added && forall c :: c in ran ==> c in added;
    assert skipped == multiset{} ==> ran == added;
  }

  lemma RoundsAppend(rounds: seq<Round>, r: Round)
    requires RoundsOk(rounds) && RoundOk(r)
    ensures RoundsOk(rounds + [r])
  {
  }

  lemma ReturnMaster(threads: seq<Thread>, queue: seq<Check>, todo: int, t: Thread)
    requires MasterOk(threads, queue, todo) && t.place.Outside?
    ensures MasterOk(threads[0 := t], queue, todo)
  {
  }

  lemma NewRound(queue: seq<Check>, threads: seq<Thread>)
    requires NoneWorking(threads) && queue == []
    ensures Conserved(multiset{}, queue, threads, multiset{}, multiset{})
    ensures ResultsOk(threads, Passed, multiset{}, multiset{})
  {
    hide SumOf;
    forall c ensures Balanced(0, queue, threads, 0, 0, c) {
      SumZero(threads, PendingAt(c));
    }
  }
}
