/** The worker thread and its queue as atomic steps of a pusher, the worker and a stopper.
    Push and take run under the mutex; Stop does not take it, so it can fall between the two
    halves of a push. */
module WorkerQueue {
  import opened Prelude

  /** Where the worker is: before the loop test, before the critical section, or outside it. */
  datatype Place<T> = AtLoopTest | AtQueue | Executing(task: T) | Exited

  /** storing is the task of a push that has passed its check of m_running. */
  datatype Worker<T> = Worker(queue: seq<T>, running: bool, place: Place<T>, storing: Option<T>,
                              accepted: seq<T>, executed: seq<T>, acceptedLate: nat, takenLate: nat)

  datatype Step<T> = PushCheck(task: T) | PushStore | LoopTest | Take | Execute | Stop

  function Started<T>(): Worker<T> {
    Worker([], true, AtLoopTest, None, [], [], 0, 0)
  }

  /** The mutex is free for the worker or another pusher. */
  predicate MutexFree<T>(w: Worker<T>) {
    w.storing.None?
  }

  /** A step that is not enabled changes nothing. */
  function Do<T>(w: Worker<T>, s: Step<T>): Worker<T> {
    match s
    case PushCheck(task) =>
      if MutexFree(w) && w.running then w.(storing := Some(task)) else w
    case PushStore =>
      if MutexFree(w) then w
      else
        w.(queue := w.queue + [w.storing.value], accepted := w.accepted + [w.storing.value], storing := None,
           acceptedLate := if w.running then w.acceptedLate else w.acceptedLate + 1)
    case LoopTest =>
      if !w.place.AtLoopTest? then w
      else if w.running then w.(place := AtQueue) else w.(place := Exited)
    case Take =>
      if !w.place.AtQueue? || !MutexFree(w) then w
      else if w.queue == [] then (if w.running then w else w.(place := Exited))
      else
        w.(place := Executing(w.queue[0]), queue := w.queue[1..],
           takenLate := if w.running then w.takenLate else w.takenLate + 1)
    case Execute =>
      if w.place.Executing? then w.(executed := w.executed + [w.place.task], place := AtLoopTest) else w
    case Stop => w.(running := false)
  }

  function Run<T>(w: Worker<T>, steps: seq<Step<T>>): Worker<T>
    decreases |steps|
  {
    if steps == [] then w else Run(Do(w, steps[0]), steps[1..])
  }

  function InFlight<T>(w: Worker<T>): seq<T> {
    if w.place.Executing? then [w.place.task] else []
  }

  /** Accepted tasks are the executed ones, then the one in flight, then the queue. */
  ghost predicate Inv<T>(w: Worker<T>) {
    && w.accepted == w.executed + InFlight(w) + w.queue
    && (w.running ==> w.acceptedLate == 0 && w.takenLate == 0)
    && (!w.running ==> w.acceptedLate + (if w.storing.Some? then 1 else 0) <= 1)
    && (!w.running ==> w.takenLate + (if w.place.AtQueue? then 1 else 0) <= 1)
  }

  lemma StepKeeps<T>(w: Worker<T>, s: Step<T>)
    requires Inv(w)
    ensures Inv(Do(w, s))
  {
    match s
    case PushCheck(_) =>
    case PushStore =>
      if w.storing.Some? { Regroup(w.executed + InFlight(w), w.queue, [w.storing.value]); }
    case LoopTest =>
    case Take =>
      if w.queue != [] && w.place.AtQueue? {
        assert w.queue == [w.queue[0]] + w.queue[1..];
        Regroup(w.executed, [w.queue[0]], w.queue[1..]);
        assert w.executed + [] == w.executed;
      }
    case Execute =>
      if w.place.Executing? {
        var done := w.executed + [w.place.task];
        assert done + [] == done;
      }
    case Stop =>
  }

  /** Under every interleaving tasks are executed in the order they were accepted and at most
      once, nothing gets lost, and after Stop at most one more task is accepted (a push that
      was half-way through) and at most one more is taken. */
  lemma {:induction false} RunKeeps<T>(w: Worker<T>, steps: seq<Step<T>>)
    requires Inv(w)
    ensures var r := Run(w, steps);
      && r.accepted == r.executed + InFlight(r) + r.queue
      && r.executed <= r.accepted
      && r.acceptedLate <= 1 && r.takenLate <= 1
    decreases |steps|
  {
    if steps == [] {
      Regroup(w.executed, InFlight(w), w.queue);
    } else {
      StepKeeps(w, steps[0]);
      RunKeeps(Do(w, steps[0]), steps[1..]);
    }
  }

  /** The same for a worker from its start. */
  lemma StartedRun<T>(steps: seq<Step<T>>)
    ensures var r := Run(Started(), steps);
      r.accepted == r.executed + InFlight(r) + r.queue && r.acceptedLate <= 1 && r.takenLate <= 1
  {
    RunKeeps(Started(), steps);
  }

  function InStore<T>(w: Worker<T>): seq<T> {
    if w.storing.Some? then [w.storing.value] else []
  }

  /** The tasks of the pushes that passed their check, in order. */
  function Pushed<T>(w: Worker<T>, steps: seq<Step<T>>): seq<T>
    decreases |steps|
  {
    if steps == [] then []
    else
      (if steps[0].PushCheck? && w.storing.None? && w.running then [steps[0].task] else [])
      + Pushed(Do(w, steps[0]), steps[1..])
  }

  lemma StepAccepts<T>(w: Worker<T>, s: Step<T>)
    ensures var r := Do(w, s);
      r.accepted + InStore(r)
      == w.accepted + InStore(w) + (if s.PushCheck? && w.storing.None? && w.running then [s.task] else [])
  {
    assert w.accepted + [] == w.accepted;
    assert w.accepted + InStore(w) + [] == w.accepted + InStore(w);
    if s.PushStore? && w.storing.Some? {
      assert w.accepted + [w.storing.value] + [] == w.accepted + [w.storing.value];
    }
  }

  /** A push that has passed its check is the next to be accepted: over every interleaving the
      accepted tasks are those whose pushes passed, in order, the last of them perhaps not stored yet. */
  lemma {:induction false} PushesAreAccepted<T>(w: Worker<T>, steps: seq<Step<T>>)
    ensures var r := Run(w, steps); r.accepted + InStore(r) == w.accepted + InStore(w) + Pushed(w, steps)
    decreases |steps|
  {
    if steps == [] {
      assert w.accepted + InStore(w) + [] == w.accepted + InStore(w);
    } else {
      StepAccepts(w, steps[0]);
      PushesAreAccepted(Do(w, steps[0]), steps[1..]);
      Regroup(w.accepted + InStore(w),
        if steps[0].PushCheck? && w.storing.None? && w.running then [steps[0].task] else [],
        Pushed(Do(w, steps[0]), steps[1..]));
      hide Do, InStore;
    }
  }

  // ------------------------------------------------------------------ after Stop

  /** Tasks accepted or about to be accepted that nobody has taken yet. */
  function Waiting<T>(w: Worker<T>): nat {
    |w.queue| + (if w.storing.Some? then 1 else 0)
  }

  /** A stopped worker takes one more task only if it has passed its loop test. */
  function TakesLeft<T>(w: Worker<T>): nat {
    if w.place.AtQueue? then 1 else 0
  }

  /** If the worker has exited after these steps, no task is left behind. */
  ghost predicate LeavesNothing<T>(w: Worker<T>, steps: seq<Step<T>>) {
    var r := Run(w, steps);
    r.place.Exited? ==> r.queue == [] && r.storing.None?
  }

  lemma {:induction false} CoveredStaysCovered<T>(w: Worker<T>, steps: seq<Step<T>>)
    requires !w.running && Waiting(w) <= TakesLeft(w)
    ensures Waiting(Run(w, steps)) <= TakesLeft(Run(w, steps))
    decreases |steps|
  {
    if steps != [] { CoveredStaysCovered(Do(w, steps[0]), steps[1..]); }
  }

  /** A run of a stopped worker to its exit: at most one task is taken on the way. */
  lemma LastSteps<T>(w: Worker<T>)
    requires !w.running
    ensures var r := Run(w, [PushStore, Take, Execute, LoopTest]);
      r.place.Exited? && r.storing.None? && |r.queue| >= Waiting(w) - TakesLeft(w)
  {
    var steps: seq<Step<T>> := [PushStore, Take, Execute, LoopTest];
    RunThree(w, PushStore, Take, Execute, [LoopTest]);
    assert [PushStore, Take, Execute] + [LoopTest] == steps;
    var late := Do(Do(Do(w, PushStore), Take), Execute);
    assert Run(late, [LoopTest]) == Do(late, LoopTest);
  }

  /** From Stop on at most one task is accepted, that of a push half-way through, and at most one is
      taken, by a worker past its loop test. */
  lemma {:induction false} AtMostOneMore<T>(w: Worker<T>, steps: seq<Step<T>>)
    requires !w.running
    ensures var r := Run(w, steps);
      && |r.accepted| <= |w.accepted| + (if w.storing.Some? then 1 else 0)
      && |r.executed| + |InFlight(r)| <= |w.executed| + |InFlight(w)| + TakesLeft(w)
    decreases |steps|
  {
    if steps != [] { AtMostOneMore(Do(w, steps[0]), steps[1..]); }
  }

  /** What the comment in Run promises, that tasks queued at Stop are finished before the worker
      ends, holds exactly if there is no more to take than the one task of a worker that has
      already passed its loop test. */
  lemma StopDrainsIff<T>(w: Worker<T>)
    requires !w.running
    ensures (forall steps :: LeavesNothing(w, steps)) <==> Waiting(w) <= TakesLeft(w)
  {
    if Waiting(w) <= TakesLeft(w) {
      forall steps ensures LeavesNothing(w, steps) {
        CoveredStaysCovered(w, steps);
      }
    } else {
      LastSteps(w);
      assert !LeavesNothing(w, [PushStore, Take, Execute, LoopTest]);
    }
  }

  /** A run that leaves its only task behind. */
  lemma StopCanLeaveTasks<T>(task: T) returns (steps: seq<Step<T>>)
    ensures var r := Run(Started(), steps); r.place.Exited? && r.queue == [task] && r.executed == []
  {
    steps := [PushCheck(task), PushStore, Stop] + [LoopTest];
    RunThree(Started(), PushCheck(task), PushStore, Stop, [LoopTest]);
    var w := Do(Do(Do(Started(), PushCheck(task)), PushStore), Stop);
    assert Run(w, [LoopTest]) == Do(w, LoopTest);
  }

  /** These steps accept no task. */
  ghost predicate AcceptsNothing<T>(w: Worker<T>, steps: seq<Step<T>>) {
    Run(w, steps).accepted == w.accepted
  }

  lemma {:induction false} NothingStoredNothingAccepted<T>(w: Worker<T>, steps: seq<Step<T>>)
    requires !w.running && w.storing.None?
    ensures AcceptsNothing(w, steps)
    decreases |steps|
  {
    if steps != [] { NothingStoredNothingAccepted(Do(w, steps[0]), steps[1..]); }
  }

  /** Nothing is accepted after Stop exactly if Stop did not fall between the two halves of a push. */
  lemma StopRefusesIff<T>(w: Worker<T>)
    requires !w.running
    ensures (forall steps :: AcceptsNothing(w, steps)) <==> w.storing.None?
  {
    if w.storing.None? {
      forall steps ensures AcceptsNothing(w, steps) {
        NothingStoredNothingAccepted(w, steps);
      }
    } else {
      assert Run(w, [PushStore]) == Do(w, PushStore);
      assert !AcceptsNothing(w, [PushStore]);
    }
  }

  /** A push that Stop overtakes is accepted late. */
  lemma StopCanAcceptLate<T>(task: T)
    ensures var r := Run(Started(), [PushCheck(task), Stop, PushStore]);
      !r.running && r.accepted == [task] && r.acceptedLate == 1
  {
    RunThree(Started(), PushCheck(task), Stop, PushStore, []);
    assert [PushCheck(task), Stop, PushStore] + [] == [PushCheck(task), Stop, PushStore];
    assert [] + [task] == [task];
  }

  // ------------------------------------------------------------------ a worker left alone

  /** What a worker does that is left alone while n tasks wait. */
  function Rounds<T>(n: nat): seq<Step<T>> {
    if n == 0 then [] else [LoopTest, Take, Execute] + Rounds(n - 1)
  }

  lemma RunThree<T>(w: Worker<T>, a: Step<T>, b: Step<T>, c: Step<T>, rest: seq<Step<T>>)
    ensures Run(w, [a, b, c] + rest) == Run(Do(Do(Do(w, a), b), c), rest)
  {
    assert ([a, b, c] + rest)[1..] == [b, c] + rest;
    assert ([b, c] + rest)[1..] == [c] + rest;
    assert ([c] + rest)[1..] == rest;
    assert Run(Do(w, a), [b, c] + rest) == Run(Do(Do(w, a), b), [c] + rest);
  }

  /** A running worker works off its queue, front to back. */
  lemma {:induction false} WorkerDrains<T>(w: Worker<T>)
    requires w.running && w.place.AtLoopTest? && MutexFree(w)
    ensures var r := Run(w, Rounds(|w.queue|));
      r.executed == w.executed + w.queue && r.queue == [] && r.running && r.place.AtLoopTest?
    decreases |w.queue|
  {
    if w.queue == [] {
      assert w.executed + w.queue == w.executed;
    } else {
      RunThree(w, LoopTest, Take, Execute, Rounds(|w.queue| - 1));
      WorkerDrains(Do(Do(Do(w, LoopTest), Take), Execute));
      Regroup(w.executed, [w.queue[0]], w.queue[1..]);
      assert w.queue == [w.queue[0]] + w.queue[1..];
    }
  }

  // ------------------------------------------------------------------ the pool

  /** The tasks given to each worker, and whose turn is next. */
  datatype Pool<T> = Pool(given: seq<seq<T>>, next: nat)

  function NewPool<T>(threads: nat): (p: Pool<T>)
    ensures |p.given| == (if threads > 0 then threads else 4) && p.next == 0
    ensures forall j :: 0 <= j < |p.given| ==> p.given[j] == []
  {
    Pool(seq(if threads == 0 then 4 else threads, _ => []), 0)
  }

  function Submit<T>(p: Pool<T>, task: T): (r: Pool<T>)
    requires p.next < |p.given|
    ensures |r.given| == |p.given| && r.next < |r.given|
  {
    Pool(p.given[p.next := p.given[p.next] + [task]], (p.next + 1) % |p.given|)
  }

  function SubmitAll<T>(p: Pool<T>, tasks: seq<T>): (r: Pool<T>)
    requires p.next < |p.given|
    ensures |r.given| == |p.given| && r.next < |r.given|
    decreases |tasks|
  {
    if tasks == [] then p else SubmitAll(Submit(p, tasks[0]), tasks[1..])
  }

  /** Workers before the next one have had one task more than the rounds completed. */
  ghost predicate Even<T>(p: Pool<T>, rounds: nat) {
    && p.next < |p.given|
    && forall j :: 0 <= j < |p.given| ==> |p.given[j]| == rounds + (if j < p.next then 1 else 0)
  }

  lemma NextIndex(k: nat, n: nat)
    requires k < n
    ensures (k + 1) % n == if k + 1 == n then 0 else k + 1
  {
  }

  lemma OneMoreRound(rounds: nat, n: nat)
    ensures (rounds + 1) * n == rounds * n + n
  {
  }

  lemma SubmitKeepsEven<T>(p: Pool<T>, rounds: nat, task: T) returns (rounds': nat)
    requires Even(p, rounds)
    ensures var r := Submit(p, task);
      Even(r, rounds') && rounds' * |r.given| + r.next == rounds * |p.given| + p.next + 1
  {
    NextIndex(p.next, |p.given|);
    OneMoreRound(rounds, |p.given|);
    rounds' := if p.next + 1 == |p.given| then rounds + 1 else rounds;
  }

  /** No worker has been given two tasks more than another. */
  ghost predicate Fair<T>(p: Pool<T>) {
    forall i, j :: 0 <= i < |p.given| && 0 <= j < |p.given| ==> |p.given[i]| <= |p.given[j]| + 1
  }

  /** Whose turn it is after x turns of n workers: the remainder of x, by repeated subtraction. */
  function Turn(x: nat, n: nat): (r: nat)
    requires n > 0
    ensures r < n
  {
    if x < n then x else Turn(x - n, n)
  }

  lemma {:induction false} MultipleAtLeast(d: int, n: int)
    requires d > 0 && n > 0
    ensures d * n >= n
  {
    if d > 1 {
      MultipleAtLeast(d - 1, n);
      assert d * n == (d - 1) * n + n;
    }
  }

  lemma SmallMultiple(d: int, n: int)
    requires -n < d * n < n
    ensures d == 0
  {
    assert (-d) * n == -(d * n);
    if d > 0 { MultipleAtLeast(d, n); }
    if d < 0 { MultipleAtLeast(-d, n); }
  }

  lemma {:induction false} TurnQuotient(x: nat, n: nat) returns (q: nat)
    requires n > 0
    ensures x == q * n + Turn(x, n)
  {
    q := 0;
    if x >= n {
      var less := TurnQuotient(x - n, n);
      q := less + 1;
      assert q * n == less * n + n;
    }
  }

  lemma TurnIsRemainder(x: nat, n: nat)
    requires n > 0
    ensures Turn(x, n) == x % n
  {
    var q := TurnQuotient(x, n);
    assert x == (x / n) * n + x % n;
    SameRemainder(q, Turn(x, n), x / n, x % n, n);
  }

  lemma SameRemainder(q: int, r: int, q': int, r': int, n: int)
    requires 0 <= r < n && 0 <= r' < n && q * n + r == q' * n + r'
    ensures r == r'
  {
    assert (q - q') * n == q * n - q' * n;
    SmallMultiple(q - q', n);
  }

  lemma {:induction false} NextTurn(x: nat, n: nat)
    requires n > 0
    ensures Turn(x + 1, n) == if Turn(x, n) + 1 == n then 0 else Turn(x, n) + 1
  {
    if x >= n { NextTurn(x - n, n); }
  }

  /** The tasks that fall to worker j of n, in order, if the first one goes to worker start. */
  function Dealt<T>(tasks: seq<T>, start: nat, n: nat, j: nat): seq<T>
    requires n > 0
    decreases |tasks|
  {
    if tasks == [] then []
    else
      var last := |tasks| - 1;
      Dealt(tasks[..last], start, n, j) + (if Turn(start + last, n) == j then [tasks[last]] else [])
  }

  lemma SubmitOne<T>(p: Pool<T>, task: T, j: nat)
    requires p.next < |p.given| && j < |p.given|
    ensures Submit(p, task).given[j] == p.given[j] + (if p.next == j then [task] else [])
    ensures Submit(p, task).next == if p.next + 1 == |p.given| then 0 else p.next + 1
  {
    assert p.given[j] + [] == p.given[j];
  }

  lemma {:induction false} SubmitAllSnoc<T>(p: Pool<T>, tasks: seq<T>, task: T)
    requires p.next < |p.given|
    ensures SubmitAll(p, tasks + [task]) == Submit(SubmitAll(p, tasks), task)
    decreases |tasks|
  {
    if tasks == [] {
      assert [] + [task] == [task];
    } else {
      assert (tasks + [task])[1..] == tasks[1..] + [task];
      SubmitAllSnoc(Submit(p, tasks[0]), tasks[1..], task);
    }
  }

  /** Task k of one submitter goes to worker (next + k) modulo the number of workers, and each
      worker gets its tasks in the order of submission, behind those it had. */
  lemma {:induction false} TasksAreDealt<T>(p: Pool<T>, tasks: seq<T>, j: nat)
    requires p.next < |p.given| && j < |p.given|
    ensures var r := SubmitAll(p, tasks); var n := |p.given|;
      r.given[j] == p.given[j] + Dealt(tasks, p.next, n, j) && r.next == Turn(p.next + |tasks|, n)
    decreases |tasks|
  {
    var n := |p.given|;
    if tasks == [] {
      assert p.given[j] + [] == p.given[j];
    } else {
      var last := |tasks| - 1;
      TasksAreDealt(p, tasks[..last], j);
      assert tasks[..last] + [tasks[last]] == tasks;
      SubmitAllSnoc(p, tasks[..last], tasks[last]);
      NextTurn(p.next + last, n);
      SubmitOne(SubmitAll(p, tasks[..last]), tasks[last], j);
      Regroup(p.given[j], Dealt(tasks[..last], p.next, n, j), if Turn(p.next + last, n) == j then [tasks[last]] else []);
    }
  }

  lemma EvenIsFair<T>(p: Pool<T>, rounds: nat)
    requires Even(p, rounds)
    ensures Fair(p)
  {
  }

  /** From one submitter every task is handed out, and the workers' shares never differ by more
      than one: after a number of full rounds those before the next one have one task more. */
  lemma {:induction false} SharesAreEven<T>(p: Pool<T>, rounds: nat, tasks: seq<T>) returns (rounds': nat)
    requires Even(p, rounds)
    ensures var r := SubmitAll(p, tasks);
      && Even(r, rounds') && Fair(r)
      && rounds' * |r.given| + r.next == rounds * |p.given| + p.next + |tasks|
    decreases |tasks|
  {
    rounds' := rounds;
    if tasks == [] {
      EvenIsFair(p, rounds);
    } else {
      var p1 := Submit(p, tasks[0]);
      var rounds1 := SubmitKeepsEven(p, rounds, tasks[0]);
      rounds' := SharesAreEven(p1, rounds1, tasks[1..]);
    }
  }
}

/** WorkerThread and ThreadPool objects. */
module Threads {
  import opened Prelude
  import Q = WorkerQueue

  class WorkerThread<T> {
    var tasks: seq<T>
    var running: bool
    var place: Q.Place<T>
    ghost var accepted: seq<T>
    ghost var executed: seq<T>
    ghost var acceptedLate: nat
    ghost var takenLate: nat

    ghost function Abs(): Q.Worker<T>
      reads this
    {
      Q.Worker(tasks, running, place, None, accepted, executed, acceptedLate, takenLate)
    }

    /** A started worker. */
    constructor ()
      ensures Abs() == Q.Started()
    {
      tasks, running, place, accepted, executed, acceptedLate, takenLate := [], true, Q.AtLoopTest, [], [], 0, 0;
    }

    /** A push that Stop does not interrupt. */
    method PushTask(task: T)
      modifies this
      ensures Abs() == Q.Do(Q.Do(old(Abs()), Q.PushCheck(task)), Q.PushStore)
    {
      if !running { return; }
      tasks := tasks + [task];
      accepted := accepted + [task];
    }

    /** The loop test and the critical section of Run; None when there is nothing to execute. */
    method NextTask() returns (task: Option<T>)
      requires place.AtLoopTest?
      modifies this
      ensures Abs() == Q.Do(Q.Do(old(Abs()), Q.LoopTest), Q.Take)
      ensures task == if place.Executing? then Some(place.task) else None
    {
      task := None;
      if !running {
        place := Q.Exited;
        return;
      }
      place := Q.AtQueue;
      if tasks == [] { return; }
      task := Some(tasks[0]);
      place := Q.Executing(tasks[0]);
      tasks := tasks[1..];
    }

    method Finish()
      requires place.Executing?
      modifies this
      ensures Abs() == Q.Do(old(Abs()), Q.Execute)
    {
      executed := executed + [place.task];
      place := Q.AtLoopTest;
    }

    method Stop()
      modifies this
      ensures Abs() == Q.Do(old(Abs()), Q.Stop)
    {
      running := false;
    }
  }

  class ThreadPool<T> {
    var given: seq<seq<T>>
    var nextIndex: nat

    ghost function Abs(): Q.Pool<T>
      reads this
    {
      Q.Pool(given, nextIndex)
    }

    constructor (threadCount: nat)
      ensures Abs() == Q.NewPool(threadCount) && Q.Even(Abs(), 0)
    {
      var count := threadCount;
      if count == 0 {
        count := 4;
      }
      given, nextIndex := seq(count, _ => []), 0;
    }

    method Submit(task: T)
      requires nextIndex < |given|
      modifies this
      ensures Abs() == Q.Submit(old(Abs()), task)
    {
      given := given[nextIndex := given[nextIndex] + [task]];
      nextIndex := (nextIndex + 1) % |given|;
    }
  }
}
