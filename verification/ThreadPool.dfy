/** The thread pool as a transition system: workers take turns at the mutex in
    any order, may wake without being notified, and a notification is a step of
    its own after the lock is released. */
module ThreadPool {

  type Task = nat

  /** Where a worker is: before the loop test; waiting for the mutex, fresh from
      the test or back from the wait; asleep in the wait; in a task; returned. */
  datatype Pc = Top | Entering | Sleeping | Running(task: Task) | Exited

  datatype Pool = Pool(
    workers: seq<Pc>,
    tasks: seq<Task>,
    stop: bool,
    notices: nat,             // notify_one calls to come
    alarm: bool,              // notify_all call to come
    enqueued: seq<Task>,      // history: accepted tasks
    started: seq<Task>,       // history: tasks taken by a worker
    late: seq<nat>)           // history: tasks each worker took after stop

  datatype Step =
    | Enqueue(task: Task)     // by any thread
    | NotifyOne(w: nat)       // wakes sleeper w, or nobody if nobody sleeps
    | Destroy
    | NotifyAll
    | Test(w: nat)            // while (!stop)
    | Lock(w: nat)            // mutex, wait predicate, and what follows
    | Finish(w: nat)
    | Spurious(w: nat)

  function Fresh(n: nat): Pool {
    Pool(seq(n, _ => Top), [], false, 0, false, [], [], seq(n, _ => 0))
  }

  predicate Asleep(p: Pool) {
    exists w :: 0 <= w < |p.workers| && p.workers[w].Sleeping?
  }

  predicate Legal(p: Pool, s: Step) {
    match s
    case Enqueue(_) => true
    case NotifyOne(w) => p.notices > 0 && (Asleep(p) ==> w < |p.workers| && p.workers[w].Sleeping?)
    case Destroy => !p.stop
    case NotifyAll => p.alarm
    case Test(w) => w < |p.workers| && p.workers[w].Top?
    case Lock(w) => w < |p.workers| && p.workers[w].Entering?
    case Finish(w) => w < |p.workers| && p.workers[w].Running?
    case Spurious(w) => w < |p.workers| && p.workers[w].Sleeping?
  }

  function Wake(pc: Pc): Pc {
    if pc.Sleeping? then Entering else pc
  }

  /** The critical section of a worker. */
  function Locked(p: Pool, w: nat): Pool
    requires w < |p.workers| == |p.late|
  {
    if !(p.stop || p.tasks != []) then p.(workers := p.workers[w := Sleeping])
    else if p.stop && p.tasks == [] then p.(workers := p.workers[w := Exited])
    else p.(workers := p.workers[w := Running(p.tasks[0])], tasks := p.tasks[1..],
            started := p.started + [p.tasks[0]],
            late := if p.stop then p.late[w := p.late[w] + 1] else p.late)
  }

  /** An enqueue on a stopped pool throws and changes nothing. */
  function Next(p: Pool, s: Step): Pool
    requires Legal(p, s) && |p.workers| == |p.late|
  {
    match s
    case Enqueue(t) =>
      if p.stop then p
      else p.(tasks := p.tasks + [t], enqueued := p.enqueued + [t], notices := p.notices + 1)
    case NotifyOne(w) =>
      p.(notices := p.notices - 1, workers := if Asleep(p) then p.workers[w := Entering] else p.workers)
    case Destroy => p.(stop := true, alarm := true)
    case NotifyAll =>
      p.(alarm := false, workers := seq(|p.workers|, w requires 0 <= w < |p.workers| => Wake(p.workers[w])))
    case Test(w) => p.(workers := p.workers[w := if p.stop then Exited else Entering])
    case Lock(w) => Locked(p, w)
    case Finish(w) => p.(workers := p.workers[w := Top])
    case Spurious(w) => p.(workers := p.workers[w := Entering])
  }

  // ---------------------------------------------------------------------
  // Counting workers

  /** A worker that will look at the queue before it sleeps. */
  predicate Ready(pc: Pc) { pc.Top? || pc.Entering? }

  function ReadyCount(ws: seq<Pc>): nat {
    if ws == [] then 0 else (if Ready(ws[0]) then 1 else 0) + ReadyCount(ws[1..])
  }

  lemma {:induction false} ReadyUpdate(ws: seq<Pc>, w: nat, pc: Pc)
    requires w < |ws|
    ensures ReadyCount(ws[w := pc]) == ReadyCount(ws) - (if Ready(ws[w]) then 1 else 0) + if Ready(pc) then 1 else 0
  {
    if w == 0 {
      assert ws[w := pc][1..] == ws[1..];
    } else {
      assert ws[w := pc][1..] == ws[1..][w - 1 := pc];
      ReadyUpdate(ws[1..], w - 1, pc);
    }
  }

  // ---------------------------------------------------------------------
  // What every step keeps

  /** A worker that took a task after stop never gets back to the queue. */
  predicate LateOk(pc: Pc, late: nat, stop: bool) {
    late <= 1 && (!stop ==> late == 0) && (late == 1 ==> pc.Running? || pc.Top? || pc.Exited?)
  }

  predicate Inv(p: Pool) {
    && |p.workers| == |p.late|
    && p.started + p.tasks == p.enqueued
    && (!p.stop && Asleep(p) ==> |p.tasks| <= ReadyCount(p.workers) + p.notices)
    && (p.stop && Asleep(p) ==> p.alarm)
    && (!p.stop ==> forall w :: 0 <= w < |p.workers| ==> !p.workers[w].Exited?)
    && forall w :: 0 <= w < |p.workers| ==> LateOk(p.workers[w], p.late[w], p.stop)
  }

  lemma LockOk(p: Pool, w: nat)
    requires Inv(p) && w < |p.workers| && p.workers[w].Entering?
    ensures Inv(Locked(p, w)) && |Locked(p, w).workers| == |p.workers|
  {
    hide ReadyCount;
    var p' := Locked(p, w);
    ReadyUpdate(p.workers, w, p'.workers[w]);
    if p.stop || p.tasks != [] {
      assert Asleep(p') ==> Asleep(p) by {
        if Asleep(p') {
          var v :| 0 <= v < |p'.workers| && p'.workers[v].Sleeping?;
          assert p.workers[v].Sleeping?;
        }
      }
      if p.tasks != [] { assert p.tasks == [p.tasks[0]] + p.tasks[1..]; }
    }
  }

  lemma NextOk(p: Pool, s: Step)
    requires Inv(p) && Legal(p, s)
    ensures Inv(Next(p, s)) && |Next(p, s).workers| == |p.workers|
  {
    hide ReadyCount, Locked;
    var p' := Next(p, s);
    match s
    case Enqueue(t) =>
    case NotifyOne(w) =>
      if Asleep(p) { ReadyUpdate(p.workers, w, Entering); MoveOk(p, w, Entering); }
    case Destroy =>
    case NotifyAll =>
    case Test(w) =>
      ReadyUpdate(p.workers, w, p'.workers[w]);
      MoveOk(p, w, p'.workers[w]);
    case Lock(w) => LockOk(p, w);
    case Finish(w) =>
      ReadyUpdate(p.workers, w, Top);
      MoveOk(p, w, Top);
    case Spurious(w) =>
      ReadyUpdate(p.workers, w, Entering);
      MoveOk(p, w, Entering);
  }

  /** Moving one worker does not put anybody to sleep. */
  lemma MoveOk(p: Pool, w: nat, pc: Pc)
    requires Inv(p) && w < |p.workers| && !pc.Sleeping? && !pc.Running?
    requires pc.Entering? ==> !p.stop || p.workers[w].Sleeping?
    requires pc.Exited? ==> p.stop
    ensures var p' := p.(workers := p.workers[w := pc]);
      && (Asleep(p') ==> Asleep(p))
      && (!p.stop ==> forall v :: 0 <= v < |p'.workers| ==> !p'.workers[v].Exited?)
      && forall v :: 0 <= v < |p'.workers| ==> LateOk(p'.workers[v], p.late[v], p.stop)
  {
    var p' := p.(workers := p.workers[w := pc]);
    if Asleep(p') {
      var v :| 0 <= v < |p'.workers| && p'.workers[v].Sleeping?;
      assert p.workers[v].Sleeping?;
    }
  }

  // ---------------------------------------------------------------------
  // Runs

  ghost predicate LegalRun(p: Pool, steps: seq<Step>)
    decreases |steps|
  {
    steps == [] || (Legal(p, steps[0]) && |p.workers| == |p.late| && LegalRun(Next(p, steps[0]), steps[1..]))
  }

  ghost function After(p: Pool, steps: seq<Step>): Pool
    requires LegalRun(p, steps)
    decreases |steps|
  {
    if steps == [] then p else After(Next(p, steps[0]), steps[1..])
  }

  lemma {:induction false} AfterOk(p: Pool, steps: seq<Step>)
    requires Inv(p) && LegalRun(p, steps)
    ensures Inv(After(p, steps)) && |After(p, steps).workers| == |p.workers|
    decreases |steps|
  {
    hide Inv, Legal, Next;
    if steps != [] {
      NextOk(p, steps[0]);
      AfterOk(Next(p, steps[0]), steps[1..]);
    }
  }

  // ---------------------------------------------------------------------
  // The histories are what the steps show

  /** The tasks given to the pool before it was stopped, in order. */
  function Accepted(steps: seq<Step>): seq<Task> {
    if steps == [] || steps[0].Destroy? then []
    else (if steps[0].Enqueue? then [steps[0].task] else []) + Accepted(steps[1..])
  }

  /** What a step makes a worker run, if anything. */
  function Runs(p: Pool, s: Step): seq<Task>
    requires Legal(p, s) && |p.workers| == |p.late|
  {
    if s.Lock? && Next(p, s).workers[s.w].Running? then [Next(p, s).workers[s.w].task] else []
  }

  /** The tasks that the workers run in the course of the steps. */
  ghost function RunBy(p: Pool, steps: seq<Step>): seq<Task>
    requires LegalRun(p, steps)
    decreases |steps|
  {
    if steps == [] then [] else Runs(p, steps[0]) + RunBy(Next(p, steps[0]), steps[1..])
  }

  /** How many tasks worker w takes up after the stop. */
  ghost function LateBy(p: Pool, steps: seq<Step>, w: nat): nat
    requires LegalRun(p, steps)
    decreases |steps|
  {
    if steps == [] then 0
    else (if p.stop && steps[0] == Lock(w) then |Runs(p, steps[0])| else 0) + LateBy(Next(p, steps[0]), steps[1..], w)
  }

  lemma StepIsTrace(p: Pool, s: Step)
    requires Legal(p, s) && |p.workers| == |p.late|
    ensures var p' := Next(p, s);
      && p'.enqueued == p.enqueued + (if s.Enqueue? && !p.stop then [s.task] else [])
      && p'.stop == (p.stop || s.Destroy?)
      && p'.started == p.started + Runs(p, s) && |p'.workers| == |p'.late| == |p.workers|
  {
  }

  lemma LateStep(p: Pool, s: Step, w: nat)
    requires Legal(p, s) && |p.workers| == |p.late| && w < |p.late|
    ensures |Next(p, s).workers| == |Next(p, s).late| == |p.late|
    ensures Next(p, s).late[w] == p.late[w] + if p.stop && s == Lock(w) then |Runs(p, s)| else 0
  {
  }

  lemma {:induction false} LateIsTrace(p: Pool, steps: seq<Step>, w: nat)
    requires LegalRun(p, steps) && |p.workers| == |p.late| && w < |p.late|
    ensures |After(p, steps).late| == |p.late| && After(p, steps).late[w] == p.late[w] + LateBy(p, steps, w)
    decreases |steps|
  {
    hide Next, Legal, Runs;
    if steps != [] {
      LateStep(p, steps[0], w);
      LateIsTrace(Next(p, steps[0]), steps[1..], w);
    }
  }

  lemma AppendTwice(a: seq<Task>, b: seq<Task>, c: seq<Task>)
    ensures a + b + c == a + (b + c)
  {
  }

  lemma {:induction false} RunIsTrace(p: Pool, steps: seq<Step>)
    requires LegalRun(p, steps) && |p.workers| == |p.late|
    ensures var p' := After(p, steps);
      && p'.enqueued == p.enqueued + (if p.stop then [] else Accepted(steps))
      && p'.started == p.started + RunBy(p, steps)
    decreases |steps|
  {
    hide Next, Legal, Runs;
    if steps != [] {
      var q := Next(p, steps[0]);
      StepIsTrace(p, steps[0]);
      RunIsTrace(q, steps[1..]);
      AppendTwice(p.started, Runs(p, steps[0]), RunBy(q, steps[1..]));
      if !p.stop && !steps[0].Destroy? {
        AppendTwice(p.enqueued, if steps[0].Enqueue? then [steps[0].task] else [], Accepted(steps[1..]));
      }
    }
  }

  /** In every interleaving, the tasks that workers run, followed by those still
      queued, are the tasks given to the pool before its stop: in that order, each
      once, none lost. */
  lemma FirstInFirstOut(n: nat, steps: seq<Step>)
    requires LegalRun(Fresh(n), steps)
    ensures RunBy(Fresh(n), steps) + After(Fresh(n), steps).tasks == Accepted(steps)
  {
    AfterOk(Fresh(n), steps);
    RunIsTrace(Fresh(n), steps);
    hide After, RunBy, Accepted;
    var p := After(Fresh(n), steps);
    assert p.started == RunBy(Fresh(n), steps) && p.enqueued == Accepted(steps);
  }

  /** No lost wake-up: while a worker sleeps, each queued task has a worker of
      its own that will look at the queue, or a notification on its way; so the
      queue is never left to a pool that sleeps with nothing in flight. */
  lemma NoLostWakeup(n: nat, steps: seq<Step>)
    requires LegalRun(Fresh(n), steps)
    ensures var p := After(Fresh(n), steps);
      && (!p.stop && Asleep(p) ==> |p.tasks| <= ReadyCount(p.workers) + p.notices)
      && !(n > 0 && p.tasks != [] && p.notices == 0 && !p.alarm
           && forall w :: 0 <= w < |p.workers| ==> p.workers[w].Sleeping?)
  {
    AfterOk(Fresh(n), steps);
    var p := After(Fresh(n), steps);
    if n > 0 && forall w :: 0 <= w < |p.workers| ==> p.workers[w].Sleeping? {
      assert p.workers[0].Sleeping?;
      AllAsleep(p.workers);
    }
  }

  lemma {:induction false} AllAsleep(ws: seq<Pc>)
    requires forall w :: 0 <= w < |ws| ==> ws[w].Sleeping?
    ensures ReadyCount(ws) == 0
  {
    if ws != [] { AllAsleep(ws[1..]); }
  }

  /** After stop each worker starts at most one more task, and once everybody
      has been notified none is left asleep for the destructor to wait on. */
  lemma StopEndsSoon(n: nat, steps: seq<Step>, w: nat)
    requires LegalRun(Fresh(n), steps) && w < n
    ensures var p := After(Fresh(n), steps);
      && |p.workers| == n && LateBy(Fresh(n), steps, w) <= 1
      && (p.stop && !p.alarm ==> !p.workers[w].Sleeping?)
  {
    AfterOk(Fresh(n), steps);
    LateIsTrace(Fresh(n), steps, w);
  }

  // ---------------------------------------------------------------------
  // Which tasks a stopped pool still runs

  /** A worker that is yet to look at the queue once more. */
  predicate Asks(pc: Pc) { pc.Entering? || pc.Sleeping? }

  function Askers(ws: seq<Pc>): nat {
    if ws == [] then 0 else (if Asks(ws[0]) then 1 else 0) + Askers(ws[1..])
  }

  lemma {:induction false} AskersUpdate(ws: seq<Pc>, w: nat, pc: Pc)
    requires w < |ws|
    ensures Askers(ws[w := pc]) == Askers(ws) - (if Asks(ws[w]) then 1 else 0) + if Asks(pc) then 1 else 0
  {
    if w == 0 {
      assert ws[w := pc][1..] == ws[1..];
    } else {
      assert ws[w := pc][1..] == ws[1..][w - 1 := pc];
      AskersUpdate(ws[1..], w - 1, pc);
    }
  }

  lemma {:induction false} AskersSame(a: seq<Pc>, b: seq<Pc>)
    requires |a| == |b| && forall w :: 0 <= w < |a| ==> (Asks(a[w]) <==> Asks(b[w]))
    ensures Askers(a) == Askers(b)
  {
    if a != [] {
      assert Asks(a[0]) <==> Asks(b[0]);
      AskersSame(a[1..], b[1..]);
    }
  }

  function Min(a: nat, b: nat): nat { if a < b then a else b }

  /** From p to p', the first k queued tasks were started. */
  predicate Took(p: Pool, p': Pool, k: nat) {
    k <= |p.tasks| && p'.tasks == p.tasks[k..] && p'.started == p.started + p.tasks[..k]
  }

  lemma StoppedStep(p: Pool, s: Step)
    requires p.stop && Legal(p, s) && |p.workers| == |p.late|
    ensures var p' := Next(p, s);
      && p'.stop && |p'.workers| == |p'.late| && Askers(p'.workers) <= Askers(p.workers)
      && Took(p, p', Min(Askers(p.workers) - Askers(p'.workers), |p.tasks|))
  {
    hide Askers;
    var p' := Next(p, s);
    match s
    case Enqueue(t) =>
    case NotifyOne(w) => if Asleep(p) { AskersUpdate(p.workers, w, Entering); }
    case NotifyAll => AskersSame(p.workers, p'.workers);
    case Test(w) => AskersUpdate(p.workers, w, p'.workers[w]);
    case Lock(w) => AskersUpdate(p.workers, w, p'.workers[w]);
    case Finish(w) => AskersUpdate(p.workers, w, Top);
    case Spurious(w) => AskersUpdate(p.workers, w, Entering);
  }

  lemma TookTrans(p: Pool, q: Pool, r: Pool, j: nat, k: nat)
    requires Took(p, q, j) && Took(q, r, k)
    ensures Took(p, r, j + k)
  {
    assert p.tasks[..j + k] == p.tasks[..j] + p.tasks[j..][..k];
  }

  /** Each worker that was on its way to the queue takes one task while there
      are any; nobody else takes any. */
  lemma {:induction false} StoppedRun(p: Pool, steps: seq<Step>)
    requires p.stop && LegalRun(p, steps)
    ensures var p' := After(p, steps);
      && Askers(p'.workers) <= Askers(p.workers)
      && Took(p, p', Min(Askers(p.workers) - Askers(p'.workers), |p.tasks|))
    decreases |steps|
  {
    hide Askers, Next, Legal;
    if steps != [] {
      var q := Next(p, steps[0]);
      StoppedStep(p, steps[0]);
      StoppedRun(q, steps[1..]);
      var p' := After(p, steps);
      var j, k := Min(Askers(p.workers) - Askers(q.workers), |p.tasks|), Min(Askers(q.workers) - Askers(p'.workers), |q.tasks|);
      TookTrans(p, q, p', j, k);
    }
  }

  predicate AllExited(p: Pool) { forall w :: 0 <= w < |p.workers| ==> p.workers[w].Exited? }

  lemma {:induction false} NoAskers(ws: seq<Pc>)
    requires forall w :: 0 <= w < |ws| ==> ws[w].Exited?
    ensures Askers(ws) == 0
  {
    if ws != [] { NoAskers(ws[1..]); }
  }

  /** What a stopped pool still runs, once all its workers have returned: exactly
      as many of the queued tasks, in order, as workers were entering or asleep
      at the stop. So every accepted task is run if and only if no more were
      queued than that. */
  lemma StopRunsExactly(p: Pool, steps: seq<Step>)
    requires p.stop && LegalRun(p, steps) && AllExited(After(p, steps))
    ensures RunBy(p, steps) == p.tasks[..Min(Askers(p.workers), |p.tasks|)]
    ensures Took(p, After(p, steps), Min(Askers(p.workers), |p.tasks|))
    ensures After(p, steps).tasks == [] <==> |p.tasks| <= Askers(p.workers)
  {
    hide Next, Legal;
    StoppedRun(p, steps);
    NoAskers(After(p, steps).workers);
    if steps != [] {
      RunIsTrace(p, steps);
      SamePrefix(p.started, RunBy(p, steps), p.tasks[..Min(Askers(p.workers), |p.tasks|)]);
    }
  }

  lemma SamePrefix(a: seq<Task>, b: seq<Task>, c: seq<Task>)
    requires a + b == a + c
    ensures b == c
  {
    assert b == (a + b)[|a|..] && c == (a + c)[|a|..];
  }

  /** A pool that drops a task: its one worker is inside task 7 when it stops
      with task 8 queued. */
  lemma StopDropsTask()
    ensures var steps := [Test(0), Enqueue(7), Lock(0), Enqueue(8), Destroy];
      && LegalRun(Fresh(1), steps)
      && var p := After(Fresh(1), steps);
         p.stop && p.workers == [Running(7)] && p.tasks == [8] && Askers(p.workers) < |p.tasks|
  {
    var p2 := Pool([Entering], [7], false, 1, false, [7], [], [0]);
    var p3 := Pool([Running(7)], [], false, 1, false, [7], [7], [0]);
    var p4 := Pool([Running(7)], [8], false, 2, false, [7, 8], [7], [0]);
    RunOne(p4, Destroy, []);
    assert Next(p3, Enqueue(8)) == p4;
    RunOne(p3, Enqueue(8), [Destroy]);
    assert Next(p2, Lock(0)) == p3;
    RunOne(p2, Lock(0), [Enqueue(8), Destroy]);
    FirstTwo([Lock(0), Enqueue(8), Destroy]);
    assert Askers([Running(7)]) == 0 + Askers([Running(7)][1..]);
  }

  lemma FirstTwo(rest: seq<Step>)
    requires LegalRun(Pool([Entering], [7], false, 1, false, [7], [], [0]), rest)
    ensures LegalRun(Fresh(1), [Test(0)] + ([Enqueue(7)] + rest))
    ensures After(Fresh(1), [Test(0)] + ([Enqueue(7)] + rest)) == After(Pool([Entering], [7], false, 1, false, [7], [], [0]), rest)
  {
    var p0 := Pool([Top], [], false, 0, false, [], [], [0]);
    var p1 := Pool([Entering], [], false, 0, false, [], [], [0]);
    assert Fresh(1) == p0;
    assert Next(p1, Enqueue(7)) == Pool([Entering], [7], false, 1, false, [7], [], [0]);
    RunOne(p1, Enqueue(7), rest);
    assert Next(p0, Test(0)) == p1;
    RunOne(p0, Test(0), [Enqueue(7)] + rest);
  }

  lemma RunOne(p: Pool, s: Step, rest: seq<Step>)
    requires Legal(p, s) && |p.workers| == |p.late| && LegalRun(Next(p, s), rest)
    ensures LegalRun(p, [s] + rest) && After(p, [s] + rest) == After(Next(p, s), rest)
  {
    assert ([s] + rest)[1..] == rest;
  }

  // ---------------------------------------------------------------------
  // The destructor's joins return

  function Rank(pc: Pc): nat {
    match pc
    case Sleeping => 4
    case Entering => 3
    case Running(_) => 2
    case Top => 1
    case Exited => 0
  }

  function Left(ws: seq<Pc>): nat {
    if ws == [] then 0 else Rank(ws[0]) + Left(ws[1..])
  }

  lemma {:induction false} LeftUpdate(ws: seq<Pc>, w: nat, pc: Pc)
    requires w < |ws|
    ensures Left(ws[w := pc]) == Left(ws) - Rank(ws[w]) + Rank(pc)
  {
    if w == 0 {
      assert ws[w := pc][1..] == ws[1..];
    } else {
      assert ws[w := pc][1..] == ws[1..][w - 1 := pc];
      LeftUpdate(ws[1..], w - 1, pc);
    }
  }

  /** Once stopped, each step of a worker brings it closer to its return. */
  lemma StoppedProgress(p: Pool, s: Step)
    requires p.stop && Legal(p, s) && |p.workers| == |p.late| && (s.Test? || s.Lock? || s.Finish? || s.Spurious?)
    ensures Left(Next(p, s).workers) < Left(p.workers)
  {
    hide Left;
    LeftUpdate(p.workers, s.w, Next(p, s).workers[s.w]);
  }

  /** And while a worker has not returned, one has a step to take, or the
      notification of all is still to come. */
  lemma StoppedNotStuck(p: Pool)
    requires Inv(p) && p.stop && !AllExited(p)
    ensures (p.alarm && Legal(p, NotifyAll)) || exists w :: Legal(p, Test(w)) || Legal(p, Lock(w)) || Legal(p, Finish(w))
  {
    var w :| 0 <= w < |p.workers| && !p.workers[w].Exited?;
    match p.workers[w]
    case Sleeping => assert Asleep(p);
    case Entering => assert Legal(p, Lock(w));
    case Running(_) => assert Legal(p, Finish(w));
    case Top => assert Legal(p, Test(w));
  }
}
