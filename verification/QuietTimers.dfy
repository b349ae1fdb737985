/**
 * Timers set without a notification, src/thread_pool.h: pushDelayed of a pair, and delay(). When they are harmless, in
 * terms of the queue that a caller can see, and that otherwise the timer can be slept through.
 */
module QuietTimers {
  import opened Basics
  import opened TaskPool
  import opened ThreadPool

  // ----- when it is harmless -----

  /**
   * A pair is pushed when a queued timer already fires no later; a timer is delayed to no earlier than the entry that
   * fires just before it, or, if it is the next to fire, to no earlier than it was.
   */
  predicate Courteous(s: State, a: Action) {
    match a
    case DelayTask(id, at) =>
      var ts, i := s.q.timers, Find(s.q.timers, id);
      i < |ts| ==> ts[if i + 1 < |ts| then i + 1 else i].at <= at
    case Act =>
      s.client.Entered? && s.client.call.PushQuiet? ==>
        Next(s.q).Some? && Next(s.q).value <= s.client.call.at
    case _ => true
  }

  /** What every sleeper's deadline covers, it will be up for. */
  lemma CoveredIsNoticed(s: State, at: Time)
    requires Timed(s) && !MidTimedPush(s) && Next(s.q).Some? && Next(s.q).value <= at
    ensures Noticed(s, at)
  {
    forall i | 0 <= i < |s.ws| && Bedded(s.ws[i])
      ensures s.ws[i].until.Some? && s.ws[i].until.value <= at
    {
      assert Covers(s.ws[i].until, s.q.timers);
    }
  }

  lemma CourteousIsPolite(s: State, a: Action)
    requires Timed(s) && Courteous(s, a)
    ensures Polite(s, a)
  {
    match a {
      case DelayTask(id, at) =>
        var ts, i := s.q.timers, Find(s.q.timers, id);
        if i < |ts| && !MidTimedPush(s) {
          assert Next(s.q).value <= ts[if i + 1 < |ts| then i + 1 else i].at;
          CoveredIsNoticed(s, at);
        }
      case Act =>
        if s.client.Entered? && s.client.call.PushQuiet? {
          CoveredIsNoticed(s, s.client.call.at);
        }
      case _ =>
    }
  }

  /** A delay that does not move its timer earlier is courteous. */
  lemma PostponingIsCourteous(s: State, id: TaskId, at: Time)
    requires Sorted(s.q.timers)
    requires Find(s.q.timers, id) < |s.q.timers| ==> s.q.timers[Find(s.q.timers, id)].at <= at
    ensures Courteous(s, DelayTask(id, at))
  {
  }

  /** In every interleaving in which callers keep to that, no un-notified waiter sleeps past the earliest timer. */
  lemma {:induction false} CourteousCallersWakeEverybody(n: nat, steps: seq<Action>)
    requires n > 0 && Possible(n, steps)
    requires forall k :: 0 <= k < |steps| && Possible(n, steps[..k]) ==> Courteous(After(n, steps[..k]), steps[k])
    ensures Timed(After(n, steps))
  {
    if steps != [] {
      var before := steps[..|steps| - 1];
      assert forall k :: 0 <= k < |before| ==> before[..k] == steps[..k];
      CourteousCallersWakeEverybody(n, before);
      AlwaysInv(n, before);
      CourteousIsPolite(After(n, before), steps[|steps| - 1]);
      StepIsTimed(After(n, before), steps[|steps| - 1]);
    }
  }

  // ----- when it is not -----

  /** A timer is due in a running pool, and no thread moves but by a spurious wake-up. */
  ghost predicate SleptThrough(s: State) {
    s.continue_ && (exists i :: 0 <= i < |s.q.timers| && s.q.timers[i].at <= s.now) && forall a :: !Productive(s, a)
  }

  /** Everybody sleeps until the earliest timer, which is still to come. */
  ghost predicate AllAsleep(s: State) {
    && s.holder.Free? && s.client.Outside? && s.continue_ && s.q.tasks == [] && Sorted(s.q.timers)
    && (Next(s.q).Some? ==> s.now < Next(s.q).value)
    && forall i :: 0 <= i < |s.ws| ==> s.ws[i] == Waiting(Next(s.q), false)
  }

  lemma Extend(n: nat, steps: seq<Action>, a: Action)
    requires Possible(n, steps) && Enabled(After(n, steps), a)
    ensures Possible(n, steps + [a]) && After(n, steps + [a]) == Step(After(n, steps), a)
  {
    assert (steps + [a])[..|steps|] == steps;
  }

  /** Waiting for a deadline that is still to come, nobody moves. */
  lemma NobodyMoves(s: State, until: Option<Time>)
    requires s.client.Outside? && (until.Some? ==> s.now < until.value)
    requires forall i :: 0 <= i < |s.ws| ==> s.ws[i] == Waiting(until, false)
    ensures forall a :: !Productive(s, a)
  {
  }

  /** A new timer before all others goes to the end, where it is the next. */
  lemma EarliestGoesLast(ts: seq<Timer>, t: Timer)
    requires forall i :: 0 <= i < |ts| ==> t.at < ts[i].at
    ensures Insert(ts, t) == ts + [t]
  {
    SlotIs(ts, t.at, |ts|);
    assert ts[..|ts|] == ts && ts[|ts|..] == [];
  }

  lemma LaterThanNext(q: Queues, at: Time)
    requires Sorted(q.timers) && (Next(q).Some? ==> at < Next(q).value)
    ensures forall i :: 0 <= i < |q.timers| ==> at < q.timers[i].at
  {
  }

  lemma Extend3(n: nat, steps: seq<Action>, a: Action, b: Action, c: Action) returns (all: seq<Action>)
    requires Possible(n, steps) && EnabledInTurn(After(n, steps), a, b, c)
    ensures Possible(n, all) && After(n, all) == Step(Step(Step(After(n, steps), a), b), c)
  {
    Extend(n, steps, a);
    Extend(n, steps + [a], b);
    Extend(n, steps + [a] + [b], c);
    all := steps + [a] + [b] + [c];
  }

  predicate EnabledInTurn(s: State, a: Action, b: Action, c: Action) {
    Enabled(s, a) && Enabled(Step(s, a), b) && Enabled(Step(Step(s, a), b), c)
  }

  /** The state after a quiet push in front of all timers. */
  function QuietlyPushed(s: State, at: Time): State {
    s.(q := s.q.(timers := s.q.timers + [Timer(at, s.issued)]), issued := s.issued + 1)
  }

  lemma QuietActs(s: State, at: Time)
    requires s.holder.Free? && s.client.Outside? && forall i :: 0 <= i < |s.q.timers| ==> at < s.q.timers[i].at
    ensures EnabledInTurn(s, Enter(PushQuiet(at)), Act, Leave(0))
    ensures Step(Step(s, Enter(PushQuiet(at))), Act) == QuietlyPushed(s, at).(holder := ByClient,
      client := Acted(PushQuiet(at)))
    ensures Step(Step(Step(s, Enter(PushQuiet(at))), Act), Leave(0)) == QuietlyPushed(s, at)
  {
    EarliestGoesLast(s.q.timers, Timer(at, s.issued));
  }

  /** Everybody keeps sleeping while the new timer is put in front of all others. */
  lemma QuietPush(n: nat, steps: seq<Action>, at: Time) returns (all: seq<Action>)
    requires Possible(n, steps)
    requires var s := After(n, steps);
      s.holder.Free? && s.client.Outside? && forall i :: 0 <= i < |s.q.timers| ==> at < s.q.timers[i].at
    ensures Possible(n, all) && After(n, all) == QuietlyPushed(After(n, steps), at)
  {
    QuietActs(After(n, steps), at);
    all := Extend3(n, steps, Enter(PushQuiet(at)), Act, Leave(0));
  }

  /** From then on until it is due, a quiet push that is not courteous is slept through, whatever its time. */
  lemma QuietPushFromSleep(n: nat, steps: seq<Action>, at: Time) returns (all: seq<Action>)
    requires Possible(n, steps) && AllAsleep(After(n, steps))
    requires Next(After(n, steps).q).Some? ==> at < Next(After(n, steps).q).value
    ensures Possible(n, all) && SleptThrough(After(n, all))
    ensures After(n, all).q == Queues([], After(n, steps).q.timers + [Timer(at, After(n, steps).issued)])
  {
    var s := After(n, steps);
    LaterThanNext(s.q, at);
    all := QuietPush(n, steps, at);
    all := TimePasses(n, all, at, Next(s.q), |s.q.timers|);
  }

  /** Nobody wakes before `until`, and timer `i` is due by then. */
  lemma TimePasses(n: nat, steps: seq<Action>, at: Time, until: Option<Time>, i: nat) returns (all: seq<Action>)
    requires Possible(n, steps)
    requires var s := After(n, steps);
      && s.client.Outside? && s.continue_ && (until.Some? ==> s.now < until.value && at < until.value)
      && i < |s.q.timers| && s.q.timers[i].at == at && forall j :: 0 <= j < |s.ws| ==> s.ws[j] == Waiting(until, false)
    ensures Possible(n, all) && SleptThrough(After(n, all)) && After(n, all).q == After(n, steps).q
  {
    var s := After(n, steps);
    var dt := if at <= s.now then 0 else at - s.now;
    Extend(n, steps, Tick(dt));
    all := steps + [Tick(dt)];
    var end := After(n, all);
    assert end == s.(now := s.now + dt);
    NobodyMoves(end, until);
    assert end.q.timers[i].at <= end.now;
  }

  lemma RescheduledIsThere(ts: seq<Timer>, i: nat, at: Time)
    requires i < |ts|
    ensures Slot(ts[..i], at) < |Reschedule(ts, i, at)|
    ensures Reschedule(ts, i, at)[Slot(ts[..i], at)] == Timer(at, ts[i].id)
  {
  }

  /** Moving a timer in front of all others, to an earlier time than any, is slept through as well. */
  lemma DelayFromSleep(n: nat, steps: seq<Action>, id: TaskId, at: Time) returns (all: seq<Action>)
    requires Possible(n, steps) && AllAsleep(After(n, steps))
    requires Find(After(n, steps).q.timers, id) < |After(n, steps).q.timers|
    requires at < Next(After(n, steps).q).value
    ensures Possible(n, all) && SleptThrough(After(n, all))
    ensures After(n, all).q == Queues([], Delayed(After(n, steps).q.timers, id, at))
  {
    var s := After(n, steps);
    var ts, i := s.q.timers, Find(s.q.timers, id);
    DelayedIsRescheduled(ts, id, at);
    RescheduledIsThere(ts, i, at);
    Extend(n, steps, DelayTask(id, at));
    all := steps + [DelayTask(id, at)];
    assert After(n, all) == s.(q := s.q.(timers := Delayed(ts, id, at)));
    all := TimePasses(n, all, at, Next(s.q), Slot(ts[..i], at));
  }

  // ----- everybody can be asleep -----

  /** The timers after pushes at these times, numbered in their order. */
  function TimersOf(times: seq<Time>): seq<Timer> {
    if times == [] then []
    else Insert(TimersOf(times[..|times| - 1]), Timer(times[|times| - 1], |times| - 1))
  }

  lemma {:induction false} TimersOfSorted(times: seq<Time>)
    ensures Sorted(TimersOf(times)) && |TimersOf(times)| == |times|
    ensures forall i :: 0 <= i < |times| ==> TimersOf(times)[i].at in times
  {
    if times != [] {
      var before, t := times[..|times| - 1], Timer(times[|times| - 1], |times| - 1);
      TimersOfSorted(before);
      InsertedTimes(TimersOf(before), t, before);
      assert times == before + [t.at];
    }
  }

  lemma InsertedTimes(ts: seq<Timer>, t: Timer, times: seq<Time>)
    requires Sorted(ts) && forall i :: 0 <= i < |ts| ==> ts[i].at in times
    ensures Sorted(Insert(ts, t)) && |Insert(ts, t)| == |ts| + 1
    ensures forall i :: 0 <= i <= |ts| ==> Insert(ts, t)[i].at in times + [t.at]
  {
    InsertSplits(ts, t);
    forall i | 0 <= i <= |ts|
      ensures Insert(ts, t)[i].at in times + [t.at]
    {
      InsertedAt(ts, t, i);
    }
  }

  /** An entry of the vector after an insertion is the new one or was there. */
  lemma InsertedAt(ts: seq<Timer>, t: Timer, i: nat)
    requires i <= |ts|
    ensures |Insert(ts, t)| == |ts| + 1
    ensures Insert(ts, t)[i] == t || exists k :: 0 <= k < |ts| && Insert(ts, t)[i] == ts[k]
  {
    var p := Slot(ts, t.at);
    assert i < p ==> Insert(ts, t)[i] == ts[i];
    assert i > p ==> Insert(ts, t)[i] == ts[i - 1];
  }

  /** `n` workers that have not begun, and the timers of these times. */
  function Pushed(n: nat, times: seq<Time>): State {
    Init(n).(q := Queues([], TimersOf(times)), issued := |times|)
  }

  lemma {:induction false} PushAll(n: nat, times: seq<Time>) returns (steps: seq<Action>)
    ensures Possible(n, steps) && After(n, steps) == Pushed(n, times)
    decreases |times|
  {
    steps := [];
    if times != [] {
      steps := PushAll(n, times[..|times| - 1]);
      steps := PushOne(n, steps, times);
    }
  }

  lemma TimedActs(n: nat, times: seq<Time>)
    requires times != []
    ensures var (s, call) := (Pushed(n, times[..|times| - 1]), PushTimed(times[|times| - 1]));
      EnabledInTurn(s, Enter(call), Act, Leave(0))
        && Step(Step(Step(s, Enter(call)), Act), Leave(0)) == Pushed(n, times)
  {
    var s, call := Pushed(n, times[..|times| - 1]), PushTimed(times[|times| - 1]);
    var s2 := Step(Step(s, Enter(call)), Act);
    assert s2 == Pushed(n, times).(holder := ByClient, client := Acted(call));
    assert LeaveStep(s2, 0).ws == s.ws;
  }

  lemma PushOne(n: nat, steps: seq<Action>, times: seq<Time>) returns (all: seq<Action>)
    requires times != [] && Possible(n, steps) && After(n, steps) == Pushed(n, times[..|times| - 1])
    ensures Possible(n, all) && After(n, all) == Pushed(n, times)
  {
    TimedActs(n, times);
    all := Extend3(n, steps, Enter(PushTimed(times[|times| - 1])), Act, Leave(0));
  }

  /** The points that a worker with nothing to do passes on its way to sleep. */
  function Points(until: Option<Time>): seq<Worker> {
    [LoopTest, TryPop, WantLock, CheckReady, CheckContinue, CalcNext, AboutToWait(until), Waiting(until, false)]
  }

  ghost predicate NothingToDo(s: State) {
    s.holder.Free? && s.client.Outside? && s.continue_ && !Ready(s.q, s.now)
  }

  /** Worker `j` is at point `k` on its way to sleep. */
  function FallingAsleep(s: State, j: nat, k: nat): State
    requires j < |s.ws| && k < 8
  {
    s.(ws := s.ws[j := Points(Next(s.q))[k]], holder := if 3 <= k < 7 then ByWorker(j) else Free)
  }

  lemma FallsOn(s: State, j: nat, k: nat)
    requires NothingToDo(s) && j < |s.ws| && k < 7
    ensures Enabled(FallingAsleep(s, j, k), Work(j))
    ensures WorkStep(FallingAsleep(s, j, k), j) == FallingAsleep(s, j, k + 1)
  {
    var points, t := Points(Next(s.q)), FallingAsleep(s, j, k);
    assert t.ws[j] == points[k] && t.ws[j := points[k + 1]] == s.ws[j := points[k + 1]];
  }

  /** Worker `j` falls asleep. */
  lemma SleepOne(n: nat, steps: seq<Action>, j: nat) returns (more: seq<Action>)
    requires Possible(n, steps) && NothingToDo(After(n, steps)) && j < |After(n, steps).ws|
    requires After(n, steps).ws[j] == LoopTest
    ensures Possible(n, more)
    ensures After(n, more) == After(n, steps).(ws := After(n, steps).ws[j := Waiting(Next(After(n, steps).q), false)])
  {
    var s := After(n, steps);
    more := steps;
    assert s.ws[j := LoopTest] == s.ws;
    for k := 0 to 7
      invariant Possible(n, more) && After(n, more) == FallingAsleep(s, j, k)
    {
      FallsOn(s, j, k);
      Extend(n, more, Work(j));
      more := more + [Work(j)];
    }
  }

  /** The first `j` workers sleep. */
  function Sleeping(n: nat, j: nat, until: Option<Time>): seq<Worker>
    requires j <= n
  {
    seq(n, i => if i < j then Waiting(until, false) else LoopTest)
  }

  lemma {:induction false} SleepAll(n: nat, times: seq<Time>, j: nat) returns (steps: seq<Action>)
    requires j <= n && forall i :: 0 <= i < |times| ==> 0 < times[i]
    ensures Possible(n, steps)
    ensures After(n, steps) == Pushed(n, times).(ws := Sleeping(n, j, Next(Pushed(n, times).q)))
    decreases j
  {
    var s := Pushed(n, times);
    if j == 0 {
      steps := PushAll(n, times);
      assert Sleeping(n, 0, Next(s.q)) == Init(n).ws;
    } else {
      steps := SleepAll(n, times, j - 1);
      TimersOfSorted(times);
      assert !Ready(s.q, 0) by {
        if times != [] {
          assert TimersOf(times)[|times| - 1].at in times;
        }
      }
      steps := SleepOne(n, steps, j - 1);
      assert Sleeping(n, j - 1, Next(s.q))[j - 1 := Waiting(Next(s.q), false)] == Sleeping(n, j, Next(s.q));
    }
  }

  /**
   * For any workers and any timers still to come, there is a run after which everybody sleeps and just these timers are
   * queued.
   */
  lemma EverybodyCanSleep(n: nat, times: seq<Time>) returns (steps: seq<Action>)
    requires forall i :: 0 <= i < |times| ==> 0 < times[i]
    ensures Possible(n, steps) && AllAsleep(After(n, steps))
    ensures After(n, steps).q == Queues([], TimersOf(times)) && After(n, steps).issued == |times|
  {
    steps := SleepAll(n, times, n);
    TimersOfSorted(times);
    if times != [] {
      assert TimersOf(times)[|times| - 1].at in times;
    }
  }

  /**
   * For any number of workers, any queued timers and any time before them all, a quiet push at that time can be slept
   * through: the other half of `Courteous`.
   */
  lemma QuietPushIsSleptThrough(n: nat, times: seq<Time>, at: Time) returns (steps: seq<Action>)
    requires forall i :: 0 <= i < |times| ==> 0 < times[i] && at < times[i]
    ensures Possible(n, steps) && SleptThrough(After(n, steps))
    ensures After(n, steps).q == Queues([], TimersOf(times) + [Timer(at, |times|)])
  {
    steps := EverybodyCanSleep(n, times);
    TimersOfSorted(times);
    if times != [] {
      assert TimersOf(times)[|times| - 1].at in times;
    }
    steps := QuietPushFromSleep(n, steps, at);
  }

  /** And so can a delay of any of them to a time before them all. */
  lemma DelayIsSleptThrough(n: nat, times: seq<Time>, id: TaskId, at: Time) returns (steps: seq<Action>)
    requires forall i :: 0 <= i < |times| ==> 0 < times[i] && at < times[i]
    requires Find(TimersOf(times), id) < |TimersOf(times)|
    ensures Possible(n, steps) && SleptThrough(After(n, steps))
    ensures After(n, steps).q == Queues([], Delayed(TimersOf(times), id, at))
  {
    steps := EverybodyCanSleep(n, times);
    TimersOfSorted(times);
    assert TimersOf(times)[|times| - 1].at in times;
    steps := DelayFromSleep(n, steps, id, at);
  }
}
