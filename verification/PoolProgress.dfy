/**
 * That the thread pool of src/thread_pool.h gets work done: how many turns of a worker it takes until a ready pool has
 * run something, and until a queued task is taken and run. Nothing here depends on how the turns of the threads
 * interleave.
 */
module PoolProgress {
  import opened Basics
  import opened TaskPool
  import opened ThreadPool

  /** How many of these steps are worker `i`'s own. */
  function Turns(steps: seq<Action>, i: nat): nat {
    Times(steps, Work(i))
  }

  lemma TurnsMore(steps: seq<Action>, a: Action, i: nat)
    ensures Turns(steps + [a], i) == Turns(steps, i) + if a == Work(i) then 1 else 0
  {
    TimesConcat(steps, [a], Work(i));
  }

  lemma LastTurn(steps: seq<Action>, p: nat, i: nat)
    requires p < |steps|
    ensures var before := steps[..|steps| - 1];
      && before[..p] == steps[..p]
      && Turns(steps[p..], i) == Turns(before[p..], i) + if steps[|steps| - 1] == Work(i) then 1 else 0
  {
    var before := steps[..|steps| - 1];
    assert steps[p..] == before[p..] + [steps[|steps| - 1]];
    TurnsMore(before[p..], steps[|steps| - 1], i);
  }

  lemma {:induction false} PossibleBefore(n: nat, steps: seq<Action>, p: nat)
    requires Possible(n, steps) && p <= |steps|
    ensures Possible(n, steps[..p])
    decreases |steps|
  {
    if p == |steps| {
      assert steps[..p] == steps;
    } else {
      var before := steps[..|steps| - 1];
      assert before[..p] == steps[..p];
      PossibleBefore(n, before, p);
    }
  }

  /** The state after the first `p` steps. */
  function At(n: nat, steps: seq<Action>, p: nat): State
    requires Possible(n, steps) && p <= |steps|
  {
    PossibleBefore(n, steps, p);
    After(n, steps[..p])
  }

  lemma AtEnd(n: nat, steps: seq<Action>)
    requires Possible(n, steps)
    ensures At(n, steps, |steps|) == After(n, steps)
  {
    assert steps[..|steps|] == steps;
  }

  lemma AtBefore(n: nat, steps: seq<Action>, p: nat)
    requires Possible(n, steps) && p < |steps|
    ensures Possible(n, steps[..|steps| - 1]) && At(n, steps[..|steps| - 1], p) == At(n, steps, p)
    ensures At(n, steps, |steps| - 1) == After(n, steps[..|steps| - 1])
  {
    assert steps[..|steps| - 1][..p] == steps[..p];
  }

  // ----- a ready pool runs something -----

  /** How many turns a worker is at most away from finishing a task, while there is something to take. */
  function Left(w: Worker): (k: nat)
    ensures 1 <= k <= 8
  {
    match w
    case Running(_, _) => 1
    case TryPop => 2
    case DrainPop => 2
    case LoopTest => 3
    case Woken => 4
    case CheckReady => 4
    case WantLock => 5
    case Waiting(_, _) => 5
    case AboutToWait(_) => 6
    case CalcNext => 7
    case CheckContinue => 8
    case Exited => 1
  }

  /**
   * A turn of a worker in a ready pool finishes a task or brings it closer to that, and no other step takes it back.
   */
  lemma TurnBringsCloser(s: State, a: Action, i: nat)
    requires Inv(s) && Enabled(s, a) && i < |s.ws| && CanRun(s)
    ensures var t := Step(s, a);
      && |t.ws| == |s.ws| && |s.ran| <= |t.ran|
      && (a == Work(i) ==> |s.ran| < |t.ran| || Left(t.ws[i]) < Left(s.ws[i]))
      && (a != Work(i) ==> Left(t.ws[i]) == Left(s.ws[i]))
  {
    assert Informed(s, s.ws[i]);
    if a.Work? {
      WorkFrame(s, a.i);
    }
  }

  predicate CanRun(s: State) {
    s.continue_ && Ready(s.q, s.now)
  }

  /** From `p` on the pool is running, and has something to take before each step. */
  ghost predicate ReadyFrom(n: nat, steps: seq<Action>, p: nat)
    requires Possible(n, steps)
  {
    forall k :: p <= k < |steps| ==> CanRun(At(n, steps, k))
  }

  lemma ReadyBefore(n: nat, steps: seq<Action>, p: nat)
    requires Possible(n, steps) && p < |steps| && ReadyFrom(n, steps, p)
    ensures Possible(n, steps[..|steps| - 1]) && ReadyFrom(n, steps[..|steps| - 1], p)
  {
    var before := steps[..|steps| - 1];
    forall k | p <= k < |before|
      ensures CanRun(At(n, before, k))
    {
      AtBefore(n, steps, k);
      assert CanRun(At(n, steps, k));
    }
  }

  lemma {:induction false} TurnsCount(n: nat, steps: seq<Action>, p: nat, i: nat)
    requires i < n && Possible(n, steps) && p <= |steps| && ReadyFrom(n, steps, p)
    ensures |After(n, steps).ws| == n && |At(n, steps, p).ran| <= |After(n, steps).ran|
    ensures |At(n, steps, p).ran| < |After(n, steps).ran| || Turns(steps[p..], i) + Left(After(n, steps).ws[i]) <= 8
    decreases |steps|
  {
    WorkersStay(n, steps);
    if p == |steps| {
      AtEnd(n, steps);
    } else {
      var before := steps[..|steps| - 1];
      ReadyBefore(n, steps, p);
      AtBefore(n, steps, p);
      TurnsCount(n, before, p, i);
      LastTurn(steps, p, i);
      AlwaysInv(n, before);
      assert CanRun(At(n, steps, |steps| - 1));
      TurnBringsCloser(After(n, before), steps[|steps| - 1], i);
    }
  }

  /**
   * In every interleaving: while the pool is running and has something to take, no worker takes eight turns without
   * some task being finished.
   */
  lemma ReadyPoolRuns(n: nat, steps: seq<Action>, p: nat, i: nat)
    requires i < n && Possible(n, steps) && p <= |steps| && ReadyFrom(n, steps, p)
    requires Turns(steps[p..], i) >= 8
    ensures |After(n, steps).ran| > |At(n, steps, p).ran|
  {
    TurnsCount(n, steps, p, i);
  }

  // ----- tasks are taken in the order they were pushed -----

  /** Task ids are issued in order, and the queue holds them in that order. */
  ghost predicate InOrder(s: State) {
    && (forall j, k :: 0 <= j < k < |s.q.tasks| ==> s.q.tasks[j] < s.q.tasks[k])
    && (forall j :: 0 <= j < |s.q.tasks| ==> s.q.tasks[j] < s.issued)
  }

  /** What a step does to the immediate tasks: the first is taken, one is pushed behind all, or nothing. */
  lemma TasksAfter(s: State, a: Action)
    requires Enabled(s, a)
    ensures var t := Step(s, a);
      || (t.q.tasks == s.q.tasks && s.issued <= t.issued)
      || (a.Work? && s.q.tasks != [] && t.q.tasks == s.q.tasks[1..] && t.issued == s.issued)
      || (a.Act? && t.q.tasks == s.q.tasks + [s.issued] && t.issued == s.issued + 1)
  {
  }

  lemma StepKeepsOrder(s: State, a: Action)
    requires InOrder(s) && Enabled(s, a)
    ensures InOrder(Step(s, a))
  {
    TasksAfter(s, a);
  }

  lemma {:induction false} AlwaysInOrder(n: nat, steps: seq<Action>)
    requires Possible(n, steps)
    ensures InOrder(After(n, steps))
  {
    if steps != [] {
      AlwaysInOrder(n, steps[..|steps| - 1]);
      StepKeepsOrder(After(n, steps[..|steps| - 1]), steps[|steps| - 1]);
    }
  }

  /**
   * No task leaves the queue before one that was pushed earlier: of two that are queued, if the first still is, so is
   * the second.
   */
  lemma {:induction false} FirstInFirstOut(n: nat, steps: seq<Action>, p: nat, a: TaskId, b: TaskId)
    requires Possible(n, steps) && p <= |steps| && a < b
    requires a in At(n, steps, p).q.tasks && b in At(n, steps, p).q.tasks
    ensures a in After(n, steps).q.tasks ==> b in After(n, steps).q.tasks
    decreases |steps|
  {
    if p == |steps| {
      AtEnd(n, steps);
    } else {
      var before := steps[..|steps| - 1];
      AtBefore(n, steps, p);
      FirstInFirstOut(n, before, p, a, b);
      IssuedStays(n, before, p, a);
      AlwaysInOrder(n, before);
      OrderOfTwo(After(n, before), steps[|steps| - 1], a, b);
    }
  }

  lemma OrderOfTwo(s: State, act: Action, a: TaskId, b: TaskId)
    requires InOrder(s) && Enabled(s, act) && a < b && a < s.issued && (a in s.q.tasks ==> b in s.q.tasks)
    ensures a in Step(s, act).q.tasks ==> b in Step(s, act).q.tasks
  {
    TasksAfter(s, act);
    if s.q.tasks != [] && b in s.q.tasks && b !in s.q.tasks[1..] {
      assert b == s.q.tasks[0];
    }
  }

  lemma {:induction false} IssuedStays(n: nat, steps: seq<Action>, p: nat, id: TaskId)
    requires Possible(n, steps) && p <= |steps| && id in At(n, steps, p).q.tasks
    ensures id < After(n, steps).issued
    decreases |steps|
  {
    if p == |steps| {
      AtEnd(n, steps);
      AlwaysInOrder(n, steps);
    } else {
      AtBefore(n, steps, p);
      IssuedStays(n, steps[..|steps| - 1], p, id);
      StepIssues(After(n, steps[..|steps| - 1]), steps[|steps| - 1]);
    }
  }

  // ----- a queued task is taken and run -----

  /** How many turns a worker is at most away from taking a task, while an immediate one is queued. */
  function ToTake(w: Worker): (k: nat)
    ensures 1 <= k <= 4
  {
    match w
    case TryPop => 1
    case DrainPop => 1
    case LoopTest => 2
    case Woken => 3
    case Running(_, _) => 3
    case CheckReady => 3
    case _ => 4
  }

  /** How many tasks are in front of this one. */
  function Ahead(tasks: seq<TaskId>, id: TaskId): (k: nat)
    requires id in tasks
    ensures k < |tasks| && tasks[k] == id
  {
    if tasks[0] == id then 0 else 1 + Ahead(tasks[1..], id)
  }

  lemma {:induction false} AheadBehind(tasks: seq<TaskId>, id: TaskId, more: seq<TaskId>)
    requires id in tasks
    ensures id in tasks + more && Ahead(tasks + more, id) == Ahead(tasks, id)
    decreases |tasks|
  {
    if tasks[0] != id {
      assert (tasks + more)[1..] == tasks[1..] + more;
      AheadBehind(tasks[1..], id, more);
    }
  }

  /** Turns of worker `i` until the task is taken, at most. */
  function Wait(s: State, i: nat, id: TaskId): nat
    requires i < |s.ws| && id in s.q.tasks
  {
    3 * Ahead(s.q.tasks, id) + ToTake(s.ws[i])
  }

  lemma TurnShortensWait(s: State, a: Action, i: nat, id: TaskId)
    requires Inv(s) && InOrder(s) && Enabled(s, a) && i < |s.ws| && id in s.q.tasks && |Step(s, a).ws| == |s.ws|
    ensures var t := Step(s, a);
      id in t.q.tasks ==> Wait(t, i, id) <= Wait(s, i, id) - if a == Work(i) then 1 else 0
  {
    TasksAfter(s, a);
    if a == Work(i) {
      OwnTurn(s, i);
    } else {
      OthersTurn(s, a, i);
    }
    if a.Act? {
      AheadBehind(s.q.tasks, id, [s.issued]);
    }
    if s.q.tasks[0] == id {
      assert id !in s.q.tasks[1..];
    }
  }

  /** The worker's own turn takes a task, or brings it closer to that. */
  lemma OwnTurn(s: State, i: nat)
    requires Inv(s) && Enabled(s, Work(i)) && s.q.tasks != []
    ensures var t := Step(s, Work(i));
      |t.ws| == |s.ws| && if t.q.tasks == s.q.tasks then ToTake(t.ws[i]) < ToTake(s.ws[i]) else ToTake(t.ws[i]) <= 3
  {
    assert Informed(s, s.ws[i]);
  }

  lemma OthersTurn(s: State, a: Action, i: nat)
    requires Enabled(s, a) && a != Work(i) && i < |s.ws|
    ensures |Step(s, a).ws| == |s.ws| && ToTake(Step(s, a).ws[i]) == ToTake(s.ws[i])
  {
    if a.Work? {
      WorkFrame(s, a.i);
    }
  }

  /** A task that was taken does not come back. */
  lemma TakenStays(s: State, a: Action, id: TaskId)
    requires Enabled(s, a) && id < s.issued && id !in s.q.tasks
    ensures id !in Step(s, a).q.tasks
  {
    TasksAfter(s, a);
  }

  lemma {:induction false} WaitCount(n: nat, steps: seq<Action>, p: nat, i: nat, id: TaskId)
    requires i < n && Possible(n, steps) && p <= |steps| && id in At(n, steps, p).q.tasks
    ensures |After(n, steps).ws| == n && |At(n, steps, p).ws| == n
    ensures id in After(n, steps).q.tasks ==>
      Turns(steps[p..], i) + Wait(After(n, steps), i, id) <= Wait(At(n, steps, p), i, id)
    decreases |steps|
  {
    WorkersStay(n, steps);
    PossibleBefore(n, steps, p);
    WorkersStay(n, steps[..p]);
    if p == |steps| {
      AtEnd(n, steps);
    } else {
      var before := steps[..|steps| - 1];
      AtBefore(n, steps, p);
      WaitCount(n, before, p, i, id);
      LastTurn(steps, p, i);
      AlwaysInv(n, before);
      AlwaysInOrder(n, before);
      IssuedStays(n, before, p, id);
      if id in After(n, before).q.tasks {
        TurnShortensWait(After(n, before), steps[|steps| - 1], i, id);
      } else {
        TakenStays(After(n, before), steps[|steps| - 1], id);
      }
    }
  }

  /**
   * In every interleaving, stopped or not: a task with `k` others in front of it is no longer queued once any one
   * worker has taken 3 * k + 4 turns.
   */
  lemma QueuedTaskIsTaken(n: nat, steps: seq<Action>, p: nat, i: nat, id: TaskId)
    requires i < n && Possible(n, steps) && p <= |steps| && id in At(n, steps, p).q.tasks
    requires Turns(steps[p..], i) >= 3 * Ahead(At(n, steps, p).q.tasks, id) + 4
    ensures id !in After(n, steps).q.tasks
  {
    WaitCount(n, steps, p, i, id);
  }

  /** In hand or run, of an immediate task that was pushed before stop. */
  lemma TakenIsInHand(n: nat, steps: seq<Action>, id: TaskId)
    requires n > 0 && Possible(n, steps) && id in After(n, steps).early && id !in After(n, steps).q.tasks
    ensures Times(After(n, steps).ran, id) + Times(Hands(After(n, steps).ws), Some(id)) == 1
  {
    AlwaysEarlyKept(n, steps, id);
    EachTaskInOnePlace(n, steps, id);
  }

  lemma {:induction false} EarlyStays(n: nat, steps: seq<Action>, p: nat, id: TaskId)
    requires Possible(n, steps) && p <= |steps| && id in At(n, steps, p).early
    ensures id in After(n, steps).early
    decreases |steps|
  {
    if p == |steps| {
      AtEnd(n, steps);
    } else {
      AtBefore(n, steps, p);
      EarlyStays(n, steps[..|steps| - 1], p, id);
    }
  }

  lemma HandFound(ws: seq<Worker>, id: TaskId) returns (j: nat)
    requires Times(Hands(ws), Some(id)) > 0
    ensures j < |ws| && ws[j].Running? && ws[j].id == id
  {
    j :| 0 <= j < |ws| && Hands(ws)[j] == Some(id);
  }

  /** What a worker has in hand is run by the end of its next turn, and stays run. */
  lemma {:induction false} InHandIsRun(n: nat, steps: seq<Action>, p: nat, j: nat, id: TaskId)
    requires j < n && Possible(n, steps) && p <= |steps|
    requires id in At(n, steps, p).ran
      || (j < |At(n, steps, p).ws| && At(n, steps, p).ws[j].Running? && At(n, steps, p).ws[j].id == id)
    ensures |After(n, steps).ws| == n
    ensures id in After(n, steps).ran
      || (Turns(steps[p..], j) == 0 && After(n, steps).ws[j].Running? && After(n, steps).ws[j].id == id)
    decreases |steps|
  {
    WorkersStay(n, steps);
    if p == |steps| {
      AtEnd(n, steps);
    } else {
      var before, a := steps[..|steps| - 1], steps[|steps| - 1];
      AtBefore(n, steps, p);
      InHandIsRun(n, before, p, j, id);
      LastTurn(steps, p, j);
      RunningStays(After(n, before), a, j);
    }
  }

  lemma RunningStays(s: State, a: Action, j: nat)
    requires Enabled(s, a) && j < |s.ws|
    ensures s.ran <= Step(s, a).ran
    ensures s.ws[j].Running? ==>
      if a == Work(j) then s.ws[j].id in Step(s, a).ran else |Step(s, a).ws| == |s.ws| && Step(s, a).ws[j] == s.ws[j]
  {
    if a.Work? {
      WorkFrame(s, a.i);
    }
  }

  /**
   * In every interleaving: an immediate task of a running pool with `k` others in front of it has been run once some
   * worker has taken 3 * k + 4 turns, and then every worker one.
   */
  lemma QueuedTaskIsRun(n: nat, steps: seq<Action>, p: nat, q: nat, i: nat, id: TaskId)
    requires i < n && Possible(n, steps) && p <= q <= |steps|
    requires id in At(n, steps, p).q.tasks && id in At(n, steps, p).early
    requires Turns(steps[p..q], i) >= 3 * Ahead(At(n, steps, p).q.tasks, id) + 4
    requires forall j :: 0 <= j < n ==> Turns(steps[q..], j) >= 1
    ensures Times(After(n, steps).ran, id) == 1
  {
    var half := steps[..q];
    PossibleBefore(n, steps, q);
    assert half[..p] == steps[..p] && half[p..] == steps[p..q];
    QueuedTaskIsTaken(n, half, p, i, id);
    EarlyStays(n, half, p, id);
    TakenIsInHand(n, half, id);
    WorkersStay(n, half);
    if id in After(n, half).ran {
      InHandIsRun(n, steps, q, 0, id);
    } else {
      var j := HandFound(After(n, half).ws, id);
      InHandIsRun(n, steps, q, j, id);
    }
    RanAtMostOnce(n, steps, id);
  }

  lemma RanAtMostOnce(n: nat, steps: seq<Action>, id: TaskId)
    requires Possible(n, steps)
    ensures Times(After(n, steps).ran, id) <= 1
  {
    EachTaskInOnePlace(n, steps, id);
  }
}
