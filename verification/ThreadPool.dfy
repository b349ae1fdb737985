/**
 * The thread pool of src/thread_pool.h as a machine of interleaved steps: N workers in
 * _main, at most one thread inside a critical section of _lock, and threads that reach
 * the queues without taking _lock at all (cancel and delay). Each step is one access to
 * shared state; the queues' own mutex makes each queue operation one step.
 */
module ThreadPool {
  import opened Basics
  import opened TaskPool

  /** Where a worker is in _main. */
  datatype Worker =
    | LoopTest                                        // about to read _continue
    | TryPop                                          // about to call pop()
    | Running(id: TaskId, draining: bool)             // inside a task
    | WantLock                                        // waiting for _lock
    | CheckReady                                      // holds _lock, about to call ready()
    | CheckContinue                                   // holds _lock, about to read _continue again
    | CalcNext                                        // holds _lock, about to call next()
    | AboutToWait(until: Option<Time>)                // holds _lock, about to wait
    | Waiting(until: Option<Time>, notified: bool)    // blocked on the condition variable
    | Woken                                           // must take _lock again before the scope ends
    | DrainPop                                        // left the loop, running what remains
    | Exited

  datatype Call = PushNow | PushTimed(at: Time) | PushQuiet(at: Time) | StopCall

  /** The thread inside one of the public methods that lock _lock; `Acted` means it has yet to notify and unlock. */
  datatype Client = Outside | Entered(call: Call) | Acted(call: Call)

  datatype Holder = Free | ByWorker(i: nat) | ByClient

  datatype State = State(
    q: Queues,
    now: Time,
    continue_: bool,
    holder: Holder,
    ws: seq<Worker>,
    client: Client,
    issued: TaskId,
    ran: seq<TaskId>,
    cancelled: seq<TaskId>,
    early: set<TaskId>)       // immediate tasks pushed before stop took effect

  datatype Action =
    | Work(i: nat)
    | Enter(call: Call)
    | Act
    | Leave(woken: nat)       // for notify_one: the waiter the system picks
    | CancelTask(id: TaskId)
    | DelayTask(id: TaskId, at: Time)
    | Tick(dt: nat)

  predicate Asleep(w: Worker) { w.Waiting? && !w.notified }

  predicate Awake(w: Worker) { !Asleep(w) && !w.Exited? }

  predicate HoldsLock(w: Worker) { w.CheckReady? || w.CheckContinue? || w.CalcNext? || w.AboutToWait? }

  predicate AnyAsleep(ws: seq<Worker>) { exists i :: 0 <= i < |ws| && Asleep(ws[i]) }

  function Init(workers: nat): State {
    State(Queues([], []), 0, true, Free, seq(workers, i => LoopTest), Outside, 0, [], [], {})
  }

  predicate Enabled(s: State, a: Action) {
    match a
    case Work(i) => i < |s.ws| && !s.ws[i].Exited? && (s.ws[i].WantLock? || s.ws[i].Woken? ==> s.holder.Free?)
    case Enter(_) => s.holder.Free? && s.client.Outside?
    case Act => s.client.Entered?
    case Leave(k) =>
      s.client.Acted? && (s.client.call.PushNow? && AnyAsleep(s.ws) ==> k < |s.ws| && Asleep(s.ws[k]))
    case _ => true
  }

  /** A step of worker `i`; a waiting worker may wake at any time, since spurious wake-ups are allowed. */
  function WorkStep(s: State, i: nat): State
    requires Enabled(s, Work(i))
  {
    match s.ws[i]
    case LoopTest => Goto(s, i, if s.continue_ then TryPop else DrainPop)
    case TryPop =>
      var (q, task) := TakeNext(s.q, s.now);
      if task.Some? then Goto(s.(q := q), i, Running(task.value, false)) else Goto(s, i, WantLock)
    case Running(id, draining) => Goto(s.(ran := s.ran + [id]), i, if draining then DrainPop else LoopTest)
    case WantLock => Goto(s.(holder := ByWorker(i)), i, CheckReady)
    case CheckReady =>
      if Ready(s.q, s.now) then Goto(s.(holder := Free), i, LoopTest) else Goto(s, i, CheckContinue)
    case CheckContinue =>
      if s.continue_ then Goto(s, i, CalcNext) else Goto(s.(holder := Free), i, DrainPop)
    case CalcNext => Goto(s, i, AboutToWait(Next(s.q)))
    case AboutToWait(until) => Goto(s.(holder := Free), i, Waiting(until, false))
    case Waiting(_, _) => Goto(s, i, Woken)
    case Woken => Goto(s, i, LoopTest)
    case DrainPop =>
      var (q, task) := TakeNext(s.q, s.now);
      if task.Some? then Goto(s.(q := q), i, Running(task.value, true)) else Goto(s, i, Exited)
  }

  function Goto(s: State, i: nat, w: Worker): State
    requires i < |s.ws|
  {
    s.(ws := s.ws[i := w])
  }

  function ActStep(s: State): State
    requires Enabled(s, Act)
  {
    var t := s.(client := Acted(s.client.call));
    match s.client.call
    case PushNow =>
      t.(q := s.q.(tasks := s.q.tasks + [s.issued]), issued := s.issued + 1,
         early := if s.continue_ then s.early + {s.issued} else s.early)
    case StopCall => t.(continue_ := false)
    case call => t.(q := s.q.(timers := Insert(s.q.timers, Timer(call.at, s.issued))), issued := s.issued + 1)
  }

  function Notified(w: Worker): Worker {
    if w.Waiting? then w.(notified := true) else w
  }

  /** push wakes one waiter; pushDelayed of a function and stop wake all; pushDelayed of a pair wakes none. */
  function LeaveStep(s: State, k: nat): State
    requires Enabled(s, Leave(k))
  {
    var ws :=
      match s.client.call
      case PushNow => if k < |s.ws| && AnyAsleep(s.ws) then s.ws[k := Notified(s.ws[k])] else s.ws
      case PushQuiet(_) => s.ws
      case _ => seq(|s.ws|, i requires 0 <= i < |s.ws| => Notified(s.ws[i]));
    s.(ws := ws, holder := Free, client := Outside)
  }

  function Step(s: State, a: Action): State
    requires Enabled(s, a)
  {
    match a
    case Work(i) => WorkStep(s, i)
    case Enter(call) => s.(holder := ByClient, client := Entered(call))
    case Act => ActStep(s)
    case Leave(k) => LeaveStep(s, k)
    case CancelTask(id) =>
      if Find(s.q.timers, id) < |s.q.timers| then
        s.(q := s.q.(timers := Cancelled(s.q.timers, id)), cancelled := s.cancelled + [id])
      else s
    case DelayTask(id, at) => s.(q := s.q.(timers := Delayed(s.q.timers, id, at)))
    case Tick(dt) => s.(now := s.now + dt)
  }

  /** An interleaving of a pool of `n` workers: every action is possible when it is taken. */
  predicate Possible(n: nat, steps: seq<Action>)
    decreases |steps|, 0
  {
    steps == [] ||
    (Possible(n, steps[..|steps| - 1]) && Enabled(After(n, steps[..|steps| - 1]), steps[|steps| - 1]))
  }

  function After(n: nat, steps: seq<Action>): State
    requires Possible(n, steps)
    decreases |steps|, 1
  {
    if steps == [] then Init(n) else Step(After(n, steps[..|steps| - 1]), steps[|steps| - 1])
  }

  // ----- what every interleaving keeps -----

  /** _lock is held by exactly the thread whose program point says so. */
  ghost predicate LockKept(s: State) {
    && (forall i :: 0 <= i < |s.ws| ==> (HoldsLock(s.ws[i]) <==> s.holder == ByWorker(i)))
    && (s.holder.ByWorker? ==> s.holder.i < |s.ws|)
    && (s.holder.ByClient? <==> !s.client.Outside?)
  }

  /**
   * Past the ready() check a worker knows there is no immediate task, past the second _continue check that the pool is
   * running.
   */
  predicate Informed(s: State, w: Worker) {
    && (w.CheckContinue? || w.CalcNext? || w.AboutToWait? ==> s.q.tasks == [])
    && (w.CalcNext? || w.AboutToWait? ==> s.continue_)
    && (Asleep(w) ==> s.continue_ || s.client == Acted(StopCall))
    && (w.DrainPop? || w.Exited? || (w.Running? && w.draining) ==> !s.continue_)
  }

  predicate AnyAwake(ws: seq<Worker>) { exists i :: 0 <= i < |ws| && Awake(ws[i]) }

  /**
   * An immediate task of a running pool has a worker that will look for it, or the push that will wake one is under
   * way.
   */
  predicate SomeoneComes(s: State) {
    s.q.tasks != [] && s.continue_ ==> AnyAwake(s.ws) || s.client == Acted(PushNow)
  }

  ghost predicate Inv(s: State) {
    && |s.ws| > 0
    && LockKept(s)
    && (forall i :: 0 <= i < |s.ws| ==> Informed(s, s.ws[i]))
    && SomeoneComes(s)
  }

  /** What a step of one worker leaves alone. */
  lemma WorkFrame(s: State, i: nat)
    requires Enabled(s, Work(i))
    ensures var t := WorkStep(s, i);
      && |t.ws| == |s.ws| && (forall k :: 0 <= k < |s.ws| && k != i ==> t.ws[k] == s.ws[k])
      && t.client == s.client && t.continue_ == s.continue_ && t.issued == s.issued && t.now == s.now
      && t.early == s.early && t.cancelled == s.cancelled
      && (s.q.tasks == [] ==> t.q.tasks == [])
      && (t.holder == s.holder || t.holder == ByWorker(i) || (HoldsLock(s.ws[i]) && t.holder.Free?))
  {
  }

  lemma WorkKeepsLock(s: State, i: nat)
    requires LockKept(s) && Enabled(s, Work(i))
    ensures LockKept(WorkStep(s, i))
  {
    WorkFrame(s, i);
    var t := WorkStep(s, i);
    assert HoldsLock(s.ws[i]) <==> s.holder == ByWorker(i);
    assert HoldsLock(t.ws[i]) <==> t.holder == ByWorker(i);
  }

  lemma WorkInforms(s: State, i: nat)
    requires Inv(s) && Enabled(s, Work(i))
    ensures Informed(WorkStep(s, i), WorkStep(s, i).ws[i])
  {
    assert Informed(s, s.ws[i]);
  }

  lemma WorkKeepsInv(s: State, i: nat)
    requires Inv(s) && Enabled(s, Work(i))
    ensures Inv(WorkStep(s, i))
  {
    WorkFrame(s, i);
    WorkKeepsLock(s, i);
    WorkInforms(s, i);
    var t := WorkStep(s, i);
    forall k | 0 <= k < |t.ws|
      ensures Informed(t, t.ws[k])
    {
      assert Informed(s, s.ws[k]);
    }
    if t.q.tasks != [] && t.continue_ && s.client != Acted(PushNow) {
      var k :| 0 <= k < |s.ws| && Awake(s.ws[k]);
      assert Awake(t.ws[k]) by {
        if k == i {
          StaysAwake(s, i);
        }
      }
    }
  }

  /** A worker goes to sleep only when there is no immediate task, and leaves only after stop. */
  lemma StaysAwake(s: State, i: nat)
    requires Inv(s) && Enabled(s, Work(i)) && s.continue_ && WorkStep(s, i).q.tasks != []
    ensures Awake(WorkStep(s, i).ws[i])
  {
    assert Informed(s, s.ws[i]);
  }

  lemma LeaveWakes(s: State, k: nat)
    requires Inv(s) && Enabled(s, Leave(k))
    ensures var t := LeaveStep(s, k);
      && |t.ws| == |s.ws|
      && (forall i :: 0 <= i < |s.ws| ==> t.ws[i] == s.ws[i] || t.ws[i] == Notified(s.ws[i]))
      && (s.client.call.StopCall? || s.client.call.PushTimed? ==> !AnyAsleep(t.ws))
      && (s.client.call.PushNow? && s.continue_ ==> AnyAwake(t.ws))
  {
    var t := LeaveStep(s, k);
    if s.client.call.PushNow? && s.continue_ {
      if AnyAsleep(s.ws) {
        assert Awake(t.ws[k]);
      } else {
        assert Informed(s, s.ws[0]);
        assert Awake(t.ws[0]);
      }
    }
  }

  lemma ClientKeepsInv(s: State, a: Action)
    requires Inv(s) && Enabled(s, a) && !a.Work?
    ensures Inv(Step(s, a))
  {
    var t := Step(s, a);
    if a.Leave? {
      LeaveWakes(s, a.woken);
    }
    forall k | 0 <= k < |t.ws|
      ensures Informed(t, t.ws[k]) && (HoldsLock(t.ws[k]) <==> t.holder == ByWorker(k))
    {
      assert Informed(s, s.ws[k]);
    }
    if t.q.tasks != [] && t.continue_ && t.client != Acted(PushNow) && !(a.Leave? && s.client.call.PushNow?) {
      var k :| 0 <= k < |s.ws| && Awake(s.ws[k]);
      assert Awake(t.ws[k]);
    }
  }

  lemma StepKeepsInv(s: State, a: Action)
    requires Inv(s) && Enabled(s, a)
    ensures Inv(Step(s, a))
  {
    if a.Work? {
      WorkKeepsInv(s, a.i);
    } else {
      ClientKeepsInv(s, a);
    }
  }

  lemma {:induction false} AlwaysInv(n: nat, steps: seq<Action>)
    requires n > 0 && Possible(n, steps)
    ensures Inv(After(n, steps))
  {
    if steps == [] {
      assert Awake(Init(n).ws[0]);
    } else {
      AlwaysInv(n, steps[..|steps| - 1]);
      StepKeepsInv(After(n, steps[..|steps| - 1]), steps[|steps| - 1]);
    }
  }

  /**
   * No lost wake-up: whenever an immediate task is queued in a running pool, some worker is awake or notified, or its
   * push is about to notify.
   */
  lemma NoLostWakeup(n: nat, steps: seq<Action>)
    requires n > 0 && Possible(n, steps)
    ensures var s := After(n, steps);
      s.q.tasks != [] && s.continue_ && s.client.Outside? ==>
        exists i :: 0 <= i < |s.ws| && !s.ws[i].Exited? && (s.ws[i].Waiting? ==> s.ws[i].notified)
  {
    AlwaysInv(n, steps);
    var s := After(n, steps);
    if s.q.tasks != [] && s.continue_ && s.client.Outside? {
      var i :| 0 <= i < |s.ws| && Awake(s.ws[i]);
    }
  }

  /** Once stop has returned, no worker waits un-notified, whatever happens later. */
  lemma NobodySleepsAfterStop(n: nat, steps: seq<Action>)
    requires n > 0 && Possible(n, steps)
    ensures var s := After(n, steps);
      !s.continue_ && s.client != Acted(StopCall) ==> !AnyAsleep(s.ws)
  {
    AlwaysInv(n, steps);
    var s := After(n, steps);
    forall i | 0 <= i < |s.ws|
      ensures !s.continue_ && s.client != Acted(StopCall) ==> !Asleep(s.ws[i])
    {
      assert Informed(s, s.ws[i]);
    }
  }

  // ----- deadlines -----

  /** A sleeper that waits no longer than `until` will be up in time for every timer. */
  predicate Covers(until: Option<Time>, ts: seq<Timer>) {
    ts == [] || (until.Some? && forall i :: 0 <= i < |ts| ==> until.value <= ts[i].at)
  }

  predicate Bedded(w: Worker) { Asleep(w) || w.AboutToWait? }

  predicate MidTimedPush(s: State) { s.client.Acted? && s.client.call.PushTimed? }

  /** The timers are in order, and no un-notified waiter's deadline is later than the earliest timer. */
  ghost predicate Timed(s: State) {
    && Sorted(s.q.timers)
    && (!MidTimedPush(s) ==> forall i :: 0 <= i < |s.ws| && Bedded(s.ws[i]) ==> Covers(s.ws[i].until, s.q.timers))
  }

  /** Whether a timer set to `at` without a notification would be noticed in time by everyone asleep. */
  predicate Noticed(s: State, at: Time) {
    forall i :: 0 <= i < |s.ws| && Bedded(s.ws[i]) ==> s.ws[i].until.Some? && s.ws[i].until.value <= at
  }

  /**
   * delay() takes no lock and notifies nobody, and neither does the pushDelayed overload that is given a pair:
   * both are harmless when nobody asleep would need to rise earlier.
   */
  predicate Polite(s: State, a: Action) {
    match a
    case DelayTask(id, at) =>
      var i := Find(s.q.timers, id);
      i < |s.q.timers| ==>
        && (i + 1 < |s.q.timers| ==> s.q.timers[i + 1].at <= at)
        && (MidTimedPush(s) || Noticed(s, at))
    case Act => s.client.Entered? && s.client.call.PushQuiet? ==> Noticed(s, s.client.call.at)
    case _ => true
  }

  lemma CoversNext(q: Queues)
    requires Sorted(q.timers)
    ensures Covers(Next(q), q.timers)
  {
  }

  lemma CoversConcat(until: Option<Time>, a: seq<Timer>, b: seq<Timer>)
    ensures Covers(until, a + b) <==> Covers(until, a) && Covers(until, b)
  {
    var c := a + b;
    assert forall k :: 0 <= k < |a| ==> c[k] == a[k];
    assert forall k :: 0 <= k < |b| ==> c[|a| + k] == b[k];
    assert forall k :: |a| <= k < |c| ==> c[k] == b[k - |a|];
  }

  lemma CoversFewer(until: Option<Time>, ts: seq<Timer>, i: nat)
    requires Covers(until, ts) && i < |ts|
    ensures Covers(until, Remove(ts, i)) && Covers(until, ts[..i]) && Covers(until, ts[i + 1..])
  {
    CoversConcat(until, ts[..i], ts[i + 1..]);
  }

  lemma CoversInsert(until: Option<Time>, ts: seq<Timer>, t: Timer)
    requires Covers(until, ts)
    ensures Covers(until, Insert(ts, t)) <==> until.Some? && until.value <= t.at
  {
    var p := Slot(ts, t.at);
    CoversConcat(until, ts[..p] + [t], ts[p..]);
    CoversConcat(until, ts[..p], [t]);
    assert [t][0] == t;
  }

  lemma CoversDelayed(until: Option<Time>, ts: seq<Timer>, id: TaskId, at: Time)
    requires Covers(until, ts) && Sorted(ts) && Find(ts, id) < |ts|
    ensures Covers(until, Delayed(ts, id, at)) <==> until.Some? && until.value <= at
  {
    var i := Find(ts, id);
    var t := Timer(at, ts[i].id);
    DelayedIsRescheduled(ts, id, at);
    CoversFewer(until, ts, i);
    CoversInsert(until, ts[..i], t);
    CoversConcat(until, Insert(ts[..i], t), ts[i + 1..]);
  }

  /** A worker leaves the timers alone, or takes the last one while it is up. */
  lemma WorkTimers(s: State, i: nat)
    requires Enabled(s, Work(i))
    ensures var t := WorkStep(s, i);
      || t.q.timers == s.q.timers
      || (s.q.timers != [] && t.q.timers == s.q.timers[..|s.q.timers| - 1] && !Bedded(t.ws[i]))
  {
  }

  /** What the working worker sleeps until, if it goes to sleep, covers all timers. */
  lemma WorkerCovers(s: State, i: nat)
    requires Timed(s) && Enabled(s, Work(i)) && !MidTimedPush(s) && Bedded(WorkStep(s, i).ws[i])
    ensures Covers(WorkStep(s, i).ws[i].until, s.q.timers)
  {
    CoversNext(s.q);
    if s.ws[i].AboutToWait? {
      assert Bedded(s.ws[i]);
    }
  }

  lemma WorkIsTimed(s: State, i: nat)
    requires Inv(s) && Timed(s) && Enabled(s, Work(i))
    ensures Timed(WorkStep(s, i))
  {
    var t := WorkStep(s, i);
    WorkFrame(s, i);
    WorkTimers(s, i);
    forall k | 0 <= k < |t.ws| && Bedded(t.ws[k]) && !MidTimedPush(t)
      ensures Covers(t.ws[k].until, t.q.timers)
    {
      if k == i {
        WorkerCovers(s, i);
      } else {
        assert Bedded(s.ws[k]) && Covers(s.ws[k].until, s.q.timers);
        if t.q.timers != s.q.timers {
          CoversFewer(s.ws[k].until, s.q.timers, |s.q.timers| - 1);
        }
      }
    }
  }

  lemma DelayIsTimed(s: State, id: TaskId, at: Time)
    requires Inv(s) && Timed(s)
    ensures Timed(Step(s, DelayTask(id, at))) <==> Polite(s, DelayTask(id, at))
  {
    var i, t := Find(s.q.timers, id), Step(s, DelayTask(id, at));
    if i < |s.q.timers| {
      DelayedIsRescheduled(s.q.timers, id, at);
      RescheduleSorted(s.q.timers, i, at);
      if !MidTimedPush(s) {
        forall k | 0 <= k < |s.ws| && Bedded(s.ws[k])
          ensures Covers(s.ws[k].until, t.q.timers) <==> s.ws[k].until.Some? && s.ws[k].until.value <= at
        {
          CoversDelayed(s.ws[k].until, s.q.timers, id, at);
        }
      }
    }
  }

  lemma ActIsTimed(s: State)
    requires Inv(s) && Timed(s) && Enabled(s, Act)
    ensures Timed(ActStep(s)) <==> Polite(s, Act)
  {
    var call, t := s.client.call, ActStep(s);
    if call.PushTimed? || call.PushQuiet? {
      InsertSplits(s.q.timers, Timer(call.at, s.issued));
      forall k | 0 <= k < |s.ws| && Bedded(s.ws[k])
        ensures Covers(s.ws[k].until, t.q.timers) <==> s.ws[k].until.Some? && s.ws[k].until.value <= call.at
      {
        CoversInsert(s.ws[k].until, s.q.timers, Timer(call.at, s.issued));
      }
    }
  }

  lemma LeaveIsTimed(s: State, k: nat)
    requires Inv(s) && Timed(s) && Enabled(s, Leave(k))
    ensures Timed(LeaveStep(s, k))
  {
    LeaveWakes(s, k);
    var t := LeaveStep(s, k);
    forall i | 0 <= i < |t.ws| && Bedded(t.ws[i])
      ensures Covers(t.ws[i].until, t.q.timers)
    {
      assert HoldsLock(s.ws[i]) <==> s.holder == ByWorker(i);
      assert t.ws[i] == s.ws[i];
      assert !MidTimedPush(s);
    }
  }

  /** A step keeps the deadlines right if and only if it is polite. */
  lemma StepIsTimed(s: State, a: Action)
    requires Inv(s) && Timed(s) && Enabled(s, a)
    ensures Timed(Step(s, a)) <==> Polite(s, a)
  {
    match a {
      case Work(i) => WorkIsTimed(s, i);
      case Act => ActIsTimed(s);
      case Leave(k) => LeaveIsTimed(s, k);
      case DelayTask(id, at) => DelayIsTimed(s, id, at);
      case CancelTask(id) =>
        var i := Find(s.q.timers, id);
        if i < |s.q.timers| {
          RemoveKeepsOrder(s.q.timers, i);
          forall k | 0 <= k < |s.ws| && Bedded(s.ws[k]) && !MidTimedPush(s)
            ensures Covers(s.ws[k].until, Remove(s.q.timers, i))
          {
            CoversFewer(s.ws[k].until, s.q.timers, i);
          }
        }
      case _ =>
    }
  }

  /** In every interleaving of polite steps, no un-notified waiter sleeps past the earliest timer. */
  lemma {:induction false} NobodyOversleeps(n: nat, steps: seq<Action>)
    requires n > 0 && Possible(n, steps)
    requires forall k :: 0 <= k < |steps| && Possible(n, steps[..k]) ==> Polite(After(n, steps[..k]), steps[k])
    ensures Timed(After(n, steps))
  {
    if steps != [] {
      var before := steps[..|steps| - 1];
      assert forall k :: 0 <= k < |before| ==> before[..k] == steps[..k];
      NobodyOversleeps(n, before);
      AlwaysInv(n, before);
      StepIsTimed(After(n, before), steps[|steps| - 1]);
    }
  }

  // ----- no deadlock -----

  /** A step that does not rely on a spurious wake-up and moves a worker or a caller on. */
  predicate Productive(s: State, a: Action) {
    && Enabled(s, a)
    && (a.Work? && s.ws[a.i].Waiting? ==>
          s.ws[a.i].notified || (s.ws[a.i].until.Some? && s.ws[a.i].until.value <= s.now))
    && (a.Work? || a.Act? || a.Leave?)
  }

  /** With something to run, or with stop called and a worker still there, some thread can always move. */
  lemma NeverStuck(s: State)
    requires Inv(s)
    requires if s.continue_ then s.q.tasks != [] || (Timed(s) && Ready(s.q, s.now))
      else exists i :: 0 <= i < |s.ws| && !s.ws[i].Exited?
    ensures exists a :: Productive(s, a)
  {
    if s.client.Entered? {
      assert Productive(s, Act);
    } else if s.client.Acted? {
      var k :| AnyAsleep(s.ws) ==> 0 <= k < |s.ws| && Asleep(s.ws[k]);
      assert Productive(s, Leave(if AnyAsleep(s.ws) then k else 0));
    } else if s.holder.ByWorker? {
      assert HoldsLock(s.ws[s.holder.i]);
      assert Productive(s, Work(s.holder.i));
    } else if AnyAwake(s.ws) {
      var i :| 0 <= i < |s.ws| && Awake(s.ws[i]);
      assert Productive(s, Work(i));
    } else {
      assert Informed(s, s.ws[0]);
      if s.continue_ {
        assert Asleep(s.ws[0]) && Covers(s.ws[0].until, s.q.timers);
        assert Productive(s, Work(0));
      }
    }
  }

  // ----- every task once -----

  function InHand(w: Worker): Option<TaskId> {
    if w.Running? then Some(w.id) else None
  }

  function Hands(ws: seq<Worker>): seq<Option<TaskId>> {
    seq(|ws|, i requires 0 <= i < |ws| => InHand(ws[i]))
  }

  /** All the places a task can be: waiting, in a worker's hands, run, cancelled. */
  function TracesOf(s: State, id: TaskId): nat {
    Pending(s.q, id) + Times(Hands(s.ws), Some(id)) + Times(s.ran, id) + Times(s.cancelled, id)
  }

  lemma GotoHands(ws: seq<Worker>, i: nat, w: Worker, id: TaskId)
    requires i < |ws|
    ensures Times(Hands(ws[i := w]), Some(id)) ==
      Times(Hands(ws), Some(id)) - (if InHand(ws[i]) == Some(id) then 1 else 0) + if InHand(w) == Some(id) then 1 else 0
  {
    var was, now := Hands(ws), Hands(ws[i := w]);
    TimesSplit(was, i, Some(id));
    TimesSplit(now, i, Some(id));
    assert was[..i] == now[..i] && was[i + 1..] == now[i + 1..];
  }

  lemma PopTraces(s: State, i: nat, id: TaskId)
    requires Enabled(s, Work(i)) && (s.ws[i].TryPop? || s.ws[i].DrainPop?)
    ensures TracesOf(WorkStep(s, i), id) == TracesOf(s, id)
  {
    var t := WorkStep(s, i);
    GotoHands(s.ws, i, t.ws[i], id);
    TakeNextPending(s.q, s.now, id);
    assert t.ran == s.ran && t.cancelled == s.cancelled && t.q == TakeNext(s.q, s.now).0;
  }

  lemma FinishTraces(s: State, i: nat, id: TaskId)
    requires Enabled(s, Work(i)) && s.ws[i].Running?
    ensures TracesOf(WorkStep(s, i), id) == TracesOf(s, id)
  {
    var t := WorkStep(s, i);
    GotoHands(s.ws, i, t.ws[i], id);
    TimesConcat(s.ran, [s.ws[i].id], id);
    assert t.q == s.q && t.cancelled == s.cancelled && t.ran == s.ran + [s.ws[i].id];
  }

  lemma IdleTraces(s: State, i: nat, id: TaskId)
    requires Enabled(s, Work(i)) && !s.ws[i].Running? && !s.ws[i].TryPop? && !s.ws[i].DrainPop?
    ensures TracesOf(WorkStep(s, i), id) == TracesOf(s, id)
  {
    var t := WorkStep(s, i);
    assert t.q == s.q && t.cancelled == s.cancelled && t.ran == s.ran;
    assert InHand(s.ws[i]) == None == InHand(t.ws[i]);
    assert Hands(t.ws) == Hands(s.ws);
  }

  lemma WorkKeepsTraces(s: State, i: nat, id: TaskId)
    requires Enabled(s, Work(i))
    ensures TracesOf(WorkStep(s, i), id) == TracesOf(s, id)
  {
    if s.ws[i].TryPop? || s.ws[i].DrainPop? {
      PopTraces(s, i, id);
    } else if s.ws[i].Running? {
      FinishTraces(s, i, id);
    } else {
      IdleTraces(s, i, id);
    }
  }

  lemma ActTraces(s: State, id: TaskId)
    requires Enabled(s, Act)
    ensures TracesOf(ActStep(s), id) == TracesOf(s, id) + if s.issued == id < ActStep(s).issued then 1 else 0
  {
    if s.client.call.PushNow? {
      TimesConcat(s.q.tasks, [s.issued], id);
    } else if !s.client.call.StopCall? {
      InsertIds(s.q.timers, Timer(s.client.call.at, s.issued), id);
    }
  }

  lemma CancelTraces(s: State, task: TaskId, id: TaskId)
    ensures TracesOf(Step(s, CancelTask(task)), id) == TracesOf(s, id)
  {
    var i := Find(s.q.timers, task);
    if i < |s.q.timers| {
      RemoveIds(s.q.timers, i, id);
      TimesConcat(s.cancelled, [task], id);
      assert Times([task], id) == if task == id then 1 else 0;
      assert Pending(Step(s, CancelTask(task)).q, id) == Pending(s.q, id) - if task == id then 1 else 0;
    }
  }

  lemma StepIssues(s: State, a: Action)
    requires Enabled(s, a)
    ensures s.issued <= Step(s, a).issued <= s.issued + 1
    ensures !a.Act? ==> Step(s, a).issued == s.issued
  {
    if a.Work? {
      WorkFrame(s, a.i);
    }
  }

  lemma StepTraces(s: State, a: Action, id: TaskId)
    requires Enabled(s, a)
    ensures TracesOf(Step(s, a), id) == TracesOf(s, id) + if s.issued == id < Step(s, a).issued then 1 else 0
  {
    StepIssues(s, a);
    match a {
      case Work(i) => WorkKeepsTraces(s, i, id);
      case Act => ActTraces(s, id);
      case Leave(k) => assert Hands(Step(s, a).ws) == Hands(s.ws);
      case CancelTask(task) => CancelTraces(s, task, id);
      case DelayTask(task, at) => DelayedIds(s.q.timers, task, at, id);
      case _ =>
    }
  }

  /** In every interleaving each task is in exactly one place: queued, being run, already run, or cancelled. */
  lemma {:induction false} EachTaskInOnePlace(n: nat, steps: seq<Action>, id: TaskId)
    requires Possible(n, steps)
    ensures TracesOf(After(n, steps), id) == if id < After(n, steps).issued then 1 else 0
  {
    if steps == [] {
      assert forall i :: 0 <= i < n ==> Hands(Init(n).ws)[i] == None;
    } else {
      EachTaskInOnePlace(n, steps[..|steps| - 1], id);
      StepIssues(After(n, steps[..|steps| - 1]), steps[|steps| - 1]);
      StepTraces(After(n, steps[..|steps| - 1]), steps[|steps| - 1], id);
    }
  }

  predicate AnyExited(ws: seq<Worker>) { exists i :: 0 <= i < |ws| && ws[i].Exited? }

  /**
   * An immediate task pushed before stop is not a timer, is never cancelled, and has left the queue once any worker is
   * gone.
   */
  ghost predicate EarlyKept(s: State, id: TaskId) {
    id in s.early ==>
      && id < s.issued && Times(Ids(s.q.timers), id) == 0 && Times(s.cancelled, id) == 0
      && (AnyExited(s.ws) ==> Times(s.q.tasks, id) == 0)
  }

  lemma WorkKeepsEarly(s: State, i: nat, id: TaskId)
    requires Enabled(s, Work(i)) && EarlyKept(s, id)
    ensures EarlyKept(WorkStep(s, i), id)
  {
    var t := WorkStep(s, i);
    WorkFrame(s, i);
    WorkPops(s, i, id);
    if AnyExited(t.ws) && !t.ws[i].Exited? {
      var k :| 0 <= k < |t.ws| && t.ws[k].Exited?;
      assert s.ws[k].Exited?;
    }
  }

  lemma TakeNextFewer(q: Queues, now: Time, id: TaskId)
    ensures var r := TakeNext(q, now).0;
      Times(r.tasks, id) <= Times(q.tasks, id) && Times(Ids(r.timers), id) <= Times(Ids(q.timers), id)
  {
    if q.tasks == [] && q.timers != [] {
      RemoveIds(q.timers, |q.timers| - 1, id);
      assert Remove(q.timers, |q.timers| - 1) == q.timers[..|q.timers| - 1];
    }
  }

  lemma WorkPops(s: State, i: nat, id: TaskId)
    requires Enabled(s, Work(i))
    ensures var t := WorkStep(s, i);
      && Times(t.q.tasks, id) <= Times(s.q.tasks, id) && Times(Ids(t.q.timers), id) <= Times(Ids(s.q.timers), id)
      && (t.ws[i].Exited? ==> t.q.tasks == [])
  {
    TakeNextFewer(s.q, s.now, id);
    assert WorkStep(s, i).q == s.q || WorkStep(s, i).q == TakeNext(s.q, s.now).0;
  }

  /** A push in a running pool: the new id is in no other place yet, and nobody has left. */
  lemma ActKeepsEarly(s: State, id: TaskId)
    requires Inv(s) && Enabled(s, Act) && EarlyKept(s, id)
    requires TracesOf(s, id) == if id < s.issued then 1 else 0
    ensures EarlyKept(ActStep(s), id)
  {
    if s.client.call.PushNow? {
      TimesConcat(s.q.tasks, [s.issued], id);
    } else if !s.client.call.StopCall? {
      InsertIds(s.q.timers, Timer(s.client.call.at, s.issued), id);
    }
  }

  lemma StepKeepsEarly(s: State, a: Action, id: TaskId)
    requires Inv(s) && Enabled(s, a) && EarlyKept(s, id)
    requires TracesOf(s, id) == if id < s.issued then 1 else 0
    ensures EarlyKept(Step(s, a), id)
  {
    match a {
      case Work(i) => WorkKeepsEarly(s, i, id);
      case Act => ActKeepsEarly(s, id);
      case Leave(k) => LeaveWakes(s, k);
      case CancelTask(task) =>
        var i := Find(s.q.timers, task);
        if i < |s.q.timers| {
          RemoveIds(s.q.timers, i, id);
          TimesConcat(s.cancelled, [task], id);
          assert Ids(s.q.timers)[i] == task;
        }
      case DelayTask(task, at) => DelayedIds(s.q.timers, task, at, id);
      case _ =>
    }
  }

  lemma {:induction false} AlwaysEarlyKept(n: nat, steps: seq<Action>, id: TaskId)
    requires n > 0 && Possible(n, steps)
    ensures EarlyKept(After(n, steps), id)
  {
    if steps != [] {
      var before := steps[..|steps| - 1];
      AlwaysEarlyKept(n, before, id);
      EachTaskInOnePlace(n, before, id);
      AlwaysInv(n, before);
      StepKeepsEarly(After(n, before), steps[|steps| - 1], id);
    }
  }

  /** Every immediate task pushed before stop has run exactly once by the time the workers have all left. */
  lemma EarlyTasksRanOnce(n: nat, steps: seq<Action>, id: TaskId)
    requires n > 0 && Possible(n, steps)
    requires forall i :: 0 <= i < n && i < |After(n, steps).ws| ==> After(n, steps).ws[i].Exited?
    requires id in After(n, steps).early
    ensures Times(After(n, steps).ran, id) == 1
  {
    var s := After(n, steps);
    WorkersStay(n, steps);
    AlwaysEarlyKept(n, steps, id);
    EachTaskInOnePlace(n, steps, id);
    assert s.ws[0].Exited?;
    assert forall i :: 0 <= i < |s.ws| ==> Hands(s.ws)[i] == None;
  }

  lemma {:induction false} WorkersStay(n: nat, steps: seq<Action>)
    requires Possible(n, steps)
    ensures |After(n, steps).ws| == n
  {
    if steps != [] {
      WorkersStay(n, steps[..|steps| - 1]);
    }
  }
}
