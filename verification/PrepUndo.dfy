/**
 * Prep and undo commands of an app, src/process.cpp: `execute` runs the do commands forwards, `terminate` the undo
 * commands backwards, both moving `_app_prep_it`. What the operating system answers is a function of the run so far.
 */
module PrepUndo {
  import opened Basics

  datatype Cmd = Cmd(doCmd: string, undoCmd: string)
  datatype App = App(id: string, cmd: string, prep: seq<Cmd>, detached: seq<string>)

  datatype SystemError = PermissionDenied | OtherError

  /** How a command ended: the error of starting it, the error of waiting for it, its exit code. */
  datatype Outcome = Outcome(start: Option<SystemError>, waitFailed: bool, exitCode: int)

  /** Prep commands may not fail the launch of the desktop, which has no command, for lack of permission. */
  predicate Fails(app: App, o: Outcome) {
    || (o.start.Some? && !(app.cmd == "" && o.start.value.PermissionDenied?))
    || o.waitFailed || o.exitCode != 0
  }

  /** What happened, step `k` of launch `n`. A step with an empty do command completes without running anything. */
  datatype Event =
    | Begun(n: nat)
    | Completed(n: nat, k: nat, undoable: bool)
    | Failed(n: nat, k: nat)
    | Undone(n: nat, k: nat)

  /** `ran` are the commands run so far, `prepIt` counts the steps of `app` that are completed and not yet undone. */
  datatype State = State(app: App, prepIt: nat, running: bool, n: nat, ran: seq<string>, log: seq<Event>)

  predicate InRange(st: State) {
    st.prepIt <= |st.app.prep|
  }

  // ----- terminate -----

  function UndoStep(st: State): (st': State)
    requires InRange(st) && st.prepIt > 0
    ensures InRange(st')
  {
    var k := st.prepIt - 1;
    if st.app.prep[k].undoCmd == "" then st.(prepIt := k)
    else st.(prepIt := k, ran := st.ran + [st.app.prep[k].undoCmd], log := st.log + [Undone(st.n, k)])
  }

  function UndoAll(st: State): (st': State)
    requires InRange(st)
    ensures InRange(st') && st'.prepIt == 0
    decreases st.prepIt
  {
    if st.prepIt == 0 then st else UndoAll(UndoStep(st))
  }

  function Terminated(st: State): (st': State)
    requires InRange(st)
    ensures InRange(st') && st'.prepIt == 0
  {
    UndoAll(st.(running := false))
  }

  // ----- execute -----

  type System = nat -> Outcome

  /** One do command: the state after it, and whether to go on. */
  function PrepStep(st: State, sys: System): (r: (State, bool))
    requires st.prepIt < |st.app.prep|
    ensures InRange(r.0) && r.0.app == st.app && (r.1 ==> r.0.prepIt == st.prepIt + 1)
  {
    var k := st.prepIt;
    var c := st.app.prep[k];
    var done := Completed(st.n, k, c.undoCmd != "");
    if c.doCmd == "" then (st.(prepIt := k + 1, log := st.log + [done]), true)
    else if Fails(st.app, sys(|st.ran|)) then
      (st.(ran := st.ran + [c.doCmd], log := st.log + [Failed(st.n, k)]), false)
    else (st.(prepIt := k + 1, ran := st.ran + [c.doCmd], log := st.log + [done]), true)
  }

  function PrepAll(st: State, sys: System): (r: (State, bool))
    requires InRange(st)
    ensures InRange(r.0) && r.0.app == st.app && (r.1 ==> r.0.prepIt == |st.app.prep|)
    decreases |st.app.prep| - st.prepIt
  {
    if st.prepIt == |st.app.prep| then (st, true)
    else
      var step := PrepStep(st, sys);
      if step.1 then PrepAll(step.0, sys) else step
  }

  /** The position of the first app with this id, or the length. */
  function AppAt(apps: seq<App>, id: string): (i: nat)
    ensures i <= |apps| && (i < |apps| ==> apps[i].id == id) && forall j :: 0 <= j < i ==> apps[j].id != id
  {
    if apps == [] || apps[0].id == id then 0 else 1 + AppAt(apps[1..], id)
  }

  function FindApp(apps: seq<App>, id: string): (app: Option<App>)
    ensures app.Some? ==>
      exists i :: 0 <= i < |apps| && apps[i] == app.value && app.value.id == id && forall j :: 0 <= j < i ==>
        apps[j].id != id
    ensures app.None? ==> forall i :: 0 <= i < |apps| ==> apps[i].id != id
  {
    if AppAt(apps, id) < |apps| then Some(apps[AppAt(apps, id)]) else None
  }

  function Begin(st: State, app: App): State {
    State(app, 0, st.running, st.n + 1, st.ran, st.log + [Begun(st.n + 1)])
  }

  /** The detached commands, whatever becomes of them. */
  function Spawned(st: State): State {
    st.(ran := st.ran + st.app.detached)
  }

  /** The app's own command was run too. */
  function Started(st: State): State {
    st.(ran := st.ran + st.app.detached + [st.app.cmd])
  }

  /** Starts the app itself; the desktop needs no process. */
  function Launch(st: State, sys: System): (r: (State, int))
    requires InRange(st)
    ensures InRange(r.0)
  {
    if st.app.cmd == "" then (Spawned(st).(running := true), 0)
    else if sys(|Spawned(st).ran|).start.Some? then (Terminated(Started(st)), -1)
    else (Started(st).(running := true), 0)
  }

  function Executed(st: State, apps: seq<App>, id: string, sys: System): (r: (State, int))
    requires InRange(st)
    ensures InRange(r.0)
  {
    var clean := Terminated(st);
    match FindApp(apps, id)
    case None => (clean, 404)
    case Some(app) =>
      var prep := PrepAll(Begin(clean, app), sys);
      if prep.1 then Launch(prep.0, sys) else (Terminated(prep.0), -1)
  }

  // ----- the class -----

  class Proc {
    const sys: System
    var app: App
    var prepIt: nat
    var running: bool
    ghost var n: nat
    var ran: seq<string>
    ghost var log: seq<Event>

    ghost function Now(): State
      reads this
    {
      State(app, prepIt, running, n, ran, log)
    }

    constructor (sys: System)
      ensures Now() == State(App("", "", [], []), 0, false, 0, [], []) && this.sys == sys
    {
      this.sys := sys;
      app, prepIt, running, n, ran, log := App("", "", [], []), 0, false, 0, [], [];
    }

    method Run(command: string) returns (o: Outcome)
      modifies this`ran
      ensures o == sys(|old(ran)|) && ran == old(ran) + [command]
    {
      o := sys(|ran|);
      ran := ran + [command];
    }

    method Terminate()
      requires InRange(Now())
      modifies this
      ensures Now() == Terminated(old(Now()))
    {
      running := false;
      while prepIt != 0
        invariant InRange(Now()) && UndoAll(Now()) == UndoAll(old(Now()).(running := false))
        decreases prepIt
      {
        UndoLast();
      }
    }

    /** The body of the loop of `terminate`. */
    method UndoLast()
      requires InRange(Now()) && prepIt > 0
      modifies this`prepIt, this`ran, this`log
      ensures Now() == UndoStep(old(Now()))
    {
      var c := app.prep[prepIt - 1];
      if c.undoCmd != "" {
        // whatever comes of it, undoing goes on
        var _ := Run(c.undoCmd);
        log := log + [Undone(n, prepIt - 1)];
      }
      prepIt := prepIt - 1;
    }

    method Prepare() returns (ok: bool)
      requires InRange(Now())
      modifies this`prepIt, this`ran, this`log
      ensures (Now(), ok) == PrepAll(old(Now()), sys)
    {
      while prepIt != |app.prep|
        invariant InRange(Now()) && PrepAll(Now(), sys) == PrepAll(old(Now()), sys)
        decreases |app.prep| - prepIt
      {
        ok := DoNext();
        if !ok {
          return;
        }
      }
      return true;
    }

    /** The body of the loop of `execute`. */
    method DoNext() returns (ok: bool)
      requires prepIt < |app.prep|
      modifies this`prepIt, this`ran, this`log
      ensures (Now(), ok) == PrepStep(old(Now()), sys)
    {
      var c := app.prep[prepIt];
      if c.doCmd != "" {
        var o := Run(c.doCmd);
        // the desktop, which has no command, may start although a prep command lacks the permission to
        if o.start.Some? && !(app.cmd == "" && o.start.value.PermissionDenied?) {
          log := log + [Failed(n, prepIt)];
          return false;
        }
        if o.waitFailed || o.exitCode != 0 {
          log := log + [Failed(n, prepIt)];
          return false;
        }
      }
      log := log + [Completed(n, prepIt, c.undoCmd != "")];
      prepIt := prepIt + 1;
      return true;
    }

    /** The failed guard of `execute` terminates on every return of -1. */
    method Execute(apps: seq<App>, id: string) returns (code: int)
      requires InRange(Now())
      modifies this
      ensures (Now(), code) == Executed(old(Now()), apps, id, sys)
    {
      Terminate();
      var found := FindApp(apps, id);
      if found.None? {
        return 404;
      }
      app, prepIt := found.value, 0;
      n, log := n + 1, log + [Begun(n + 1)];
      var ok := Prepare();
      if !ok {
        Terminate();
        return -1;
      }
      code := LaunchApp();
    }

    /** Starts the app itself. */
    method LaunchApp() returns (code: int)
      requires InRange(Now())
      modifies this
      ensures (Now(), code) == Launch(old(Now()), sys)
    {
      var k := 0;
      assert app.detached[..0] == [] && ran + [] == ran;
      while k < |app.detached|
        invariant k <= |app.detached| && Now() == old(Now()).(ran := old(ran) + app.detached[..k])
      {
        assert app.detached[..k + 1] == app.detached[..k] + [app.detached[k]];
        var _ := Run(app.detached[k]);
        k := k + 1;
      }
      assert app.detached[..k] == app.detached;
      if app.cmd != "" {
        var o := Run(app.cmd);
        if o.start.Some? {
          Terminate();
          return -1;
        }
      }
      running := true;
      return 0;
    }
  }

  // ----- what the log of a run says -----

  /** The undo commands that are still owed, oldest first. */
  function Owed(n: nat, prep: seq<Cmd>, k: nat): seq<(nat, nat)>
    requires k <= |prep|
  {
    if k == 0 then [] else Owed(n, prep, k - 1) + if prep[k - 1].undoCmd == "" then [] else [(n, k - 1)]
  }

  /** What a log leaves owed. It is no stack discipline if a launch begins or an undo runs out of turn. */
  function Replay(log: seq<Event>): Option<seq<(nat, nat)>> {
    if log == [] then Some([])
    else
      match Replay(log[..|log| - 1])
      case None => None
      case Some(stack) => After(stack, log[|log| - 1])
  }

  function After(stack: seq<(nat, nat)>, e: Event): Option<seq<(nat, nat)>> {
    match e
    case Begun(n) => if stack == [] then Some([]) else None
    case Completed(n, k, undoable) => Some(if undoable then stack + [(n, k)] else stack)
    case Failed(n, k) => Some(stack)
    case Undone(n, k) =>
      if stack != [] && stack[|stack| - 1] == (n, k) then Some(stack[..|stack| - 1]) else None
  }

  ghost predicate Good(st: State) {
    InRange(st) && Replay(st.log) == Some(Owed(st.n, st.app.prep, st.prepIt))
  }

  lemma Logged(log: seq<Event>, e: Event)
    requires Replay(log).Some?
    ensures Replay(log + [e]) == After(Replay(log).value, e)
  {
    assert (log + [e])[..|log|] == log;
  }

  function Reverse<T>(s: seq<T>): seq<T> {
    if s == [] then [] else [s[|s| - 1]] + Reverse(s[..|s| - 1])
  }

  function UndoEvents(owed: seq<(nat, nat)>): seq<Event> {
    if owed == [] then [] else [Undone(owed[0].0, owed[0].1)] + UndoEvents(owed[1..])
  }

  lemma ReverseMore<T>(s: seq<T>, x: T)
    ensures Reverse(s + [x]) == [x] + Reverse(s)
  {
    assert (s + [x])[..|s|] == s;
  }

  lemma UndoEventsMore(x: (nat, nat), owed: seq<(nat, nat)>)
    ensures UndoEvents([x] + owed) == [Undone(x.0, x.1)] + UndoEvents(owed)
  {
    assert ([x] + owed)[1..] == owed;
  }

  lemma OwedMore(n: nat, prep: seq<Cmd>, k: nat)
    requires k < |prep|
    ensures Owed(n, prep, k + 1) == if prep[k].undoCmd != "" then Owed(n, prep, k) + [(n, k)] else Owed(n, prep, k)
  {
    assert Owed(n, prep, k) + [] == Owed(n, prep, k);
  }

  lemma UndoStepGood(st: State)
    requires Good(st) && st.prepIt > 0
    ensures Good(UndoStep(st))
  {
    var k := st.prepIt - 1;
    var less := Owed(st.n, st.app.prep, k);
    if st.app.prep[k].undoCmd != "" {
      assert (less + [(st.n, k)])[..|less|] == less;
      Logged(st.log, Undone(st.n, k));
    } else {
      assert less + [] == less;
    }
  }

  /** The events still to come from a state that owes `k` steps. */
  function ToCome(st: State): seq<Event>
    requires InRange(st)
  {
    UndoEvents(Reverse(Owed(st.n, st.app.prep, st.prepIt)))
  }

  lemma LoggedThenToCome(log: seq<Event>, e: Event, later: seq<Event>)
    ensures (log + [e]) + later == log + ([e] + later)
  {
  }

  lemma ToComeMore(n: nat, prep: seq<Cmd>, k: nat)
    requires k < |prep| && prep[k].undoCmd != ""
    ensures UndoEvents(Reverse(Owed(n, prep, k + 1))) == [Undone(n, k)] + UndoEvents(Reverse(Owed(n, prep, k)))
  {
    OwedMore(n, prep, k);
    ReverseMore(Owed(n, prep, k), (n, k));
    UndoEventsMore((n, k), Reverse(Owed(n, prep, k)));
  }

  lemma UndoStepAppends(st: State)
    requires InRange(st) && st.prepIt > 0
    ensures UndoStep(st).log + ToCome(UndoStep(st)) == st.log + ToCome(st)
  {
    var k := st.prepIt - 1;
    if st.app.prep[k].undoCmd != "" {
      ToComeMore(st.n, st.app.prep, k);
      LoggedThenToCome(st.log, Undone(st.n, k), ToCome(UndoStep(st)));
    } else {
      OwedMore(st.n, st.app.prep, k);
    }
  }

  /** Undoing runs what is owed, the last first, and only that. */
  lemma {:induction false} UndoAllAppends(st: State)
    requires Good(st)
    ensures Good(UndoAll(st)) && UndoAll(st).app == st.app && UndoAll(st).n == st.n
    ensures UndoAll(st).log == st.log + ToCome(st)
    decreases st.prepIt
  {
    if st.prepIt == 0 {
      assert st.log + [] == st.log;
    } else {
      UndoStepGood(st);
      UndoStepAppends(st);
      UndoAllAppends(UndoStep(st));
    }
  }

  lemma {:induction false} UndoAllStops(st: State)
    requires InRange(st)
    ensures UndoAll(st).running == st.running
    decreases st.prepIt
  {
    if st.prepIt > 0 {
      UndoAllStops(UndoStep(st));
    }
  }

  lemma TerminatedIsClean(st: State)
    requires Good(st)
    ensures Good(Terminated(st)) && !Terminated(st).running && Replay(Terminated(st).log) == Some([])
    ensures Terminated(st).log == st.log + ToCome(st)
    ensures Terminated(st).n == st.n && Terminated(st).app == st.app
  {
    UndoAllAppends(st.(running := false));
    UndoAllStops(st.(running := false));
  }

  /** A second terminate runs nothing. */
  lemma TerminateTwice(st: State)
    requires InRange(st)
    ensures Terminated(Terminated(st)) == Terminated(st)
  {
    UndoAllStops(st.(running := false));
  }

  /** A completed step is owed if it can be undone. */
  lemma CompletedIsOwed(st: State)
    requires Good(st) && st.prepIt < |st.app.prep|
    ensures Replay(st.log + [Completed(st.n, st.prepIt, st.app.prep[st.prepIt].undoCmd != "")])
         == Some(Owed(st.n, st.app.prep, st.prepIt + 1))
  {
    Logged(st.log, Completed(st.n, st.prepIt, st.app.prep[st.prepIt].undoCmd != ""));
    OwedMore(st.n, st.app.prep, st.prepIt);
  }

  /** A failed step is not owed. */
  lemma FailedIsNotOwed(st: State)
    requires Good(st) && st.prepIt < |st.app.prep|
    ensures Replay(st.log + [Failed(st.n, st.prepIt)]) == Some(Owed(st.n, st.app.prep, st.prepIt))
  {
    Logged(st.log, Failed(st.n, st.prepIt));
  }

  lemma PrepStepGood(st: State, sys: System)
    requires Good(st) && st.prepIt < |st.app.prep|
    ensures Good(PrepStep(st, sys).0) && PrepStep(st, sys).0.n == st.n
    ensures var (end, ok) := PrepStep(st, sys);
      && end.prepIt == st.prepIt + (if ok then 1 else 0)
      && end.log == st.log + [if ok then Completed(st.n, st.prepIt, st.app.prep[st.prepIt].undoCmd != "")
        else Failed(st.n, st.prepIt)]
  {
    CompletedIsOwed(st);
    FailedIsNotOwed(st);
  }

  lemma PrepAllIs(st: State, sys: System)
    requires st.prepIt < |st.app.prep|
    ensures PrepAll(st, sys) == if PrepStep(st, sys).1 then PrepAll(PrepStep(st, sys).0, sys) else PrepStep(st, sys)
  {
  }

  lemma {:induction false} PrepAllKeepsGood(st: State, sys: System)
    requires Good(st)
    ensures Good(PrepAll(st, sys).0) && PrepAll(st, sys).0.n == st.n
    decreases |st.app.prep| - st.prepIt
  {
    if st.prepIt < |st.app.prep| {
      PrepAllIs(st, sys);
      PrepStepGood(st, sys);
      if PrepStep(st, sys).1 {
        PrepAllKeepsGood(PrepStep(st, sys).0, sys);
      }
    }
  }

  lemma {:induction false} PrepAllLogs(st: State, sys: System)
    requires InRange(st)
    ensures st.log <= PrepAll(st, sys).0.log
    decreases |st.app.prep| - st.prepIt
  {
    if st.prepIt < |st.app.prep| {
      PrepAllIs(st, sys);
      if PrepStep(st, sys).1 {
        PrepAllLogs(PrepStep(st, sys).0, sys);
      }
    }
  }

  /** If the do commands stop early, the failing step is the last that is logged. */
  lemma {:induction false} PrepAllStopsAtFailure(st: State, sys: System)
    requires InRange(st) && !PrepAll(st, sys).1
    ensures var end := PrepAll(st, sys).0;
      end.prepIt < |st.app.prep| && end.log != [] && end.log[|end.log| - 1] == Failed(st.n, end.prepIt)
    decreases |st.app.prep| - st.prepIt
  {
    PrepAllIs(st, sys);
    if PrepStep(st, sys).1 {
      PrepAllStopsAtFailure(PrepStep(st, sys).0, sys);
    }
  }

  lemma PrepAllGood(st: State, sys: System)
    requires Good(st)
    ensures var (end, ok) := PrepAll(st, sys);
      && Good(end) && end.n == st.n && st.log <= end.log
      && (!ok ==> end.prepIt < |st.app.prep| && end.log != [] && end.log[|end.log| - 1] == Failed(st.n, end.prepIt))
  {
    PrepAllKeepsGood(st, sys);
    PrepAllLogs(st, sys);
    if !PrepAll(st, sys).1 {
      PrepAllStopsAtFailure(st, sys);
    }
  }

  lemma BeginGood(st: State, app: App)
    requires Good(st) && Replay(st.log) == Some([])
    ensures Good(Begin(st, app))
  {
    Logged(st.log, Begun(st.n + 1));
  }

  lemma LaunchKeepsGood(st: State, sys: System)
    requires Good(st) && st.prepIt == |st.app.prep|
    ensures var (end, code) := Launch(st, sys);
      && Good(end) && end.app == st.app && (code == 0 || code == -1)
      && (code == 0 ==> end.running && end.prepIt == |st.app.prep| && end.log == st.log)
      && (code == -1 ==> end == Terminated(Started(st)) && !end.running && Replay(end.log) == Some([]))
  {
    TerminatedIsClean(Started(st));
  }

  /** `execute` leaves the steps of the app it started owed, or nothing. */
  lemma ExecuteKeepsGood(st: State, apps: seq<App>, id: string, sys: System)
    requires Good(st)
    ensures var (end, code) := Executed(st, apps, id, sys);
      && Good(end) && (code == 404 <==> FindApp(apps, id).None?)
      && (code == 0 ==> end.running && end.prepIt == |end.app.prep| && end.app.id == id)
      && (code != 0 ==> !end.running && end.prepIt == 0 && Replay(end.log) == Some([]))
  {
    TerminatedIsClean(st);
    if FindApp(apps, id).Some? {
      var begun := Begin(Terminated(st), FindApp(apps, id).value);
      BeginGood(Terminated(st), FindApp(apps, id).value);
      PrepAllGood(begun, sys);
      var prep := PrepAll(begun, sys);
      if prep.1 {
        LaunchKeepsGood(prep.0, sys);
      } else {
        TerminatedIsClean(prep.0);
      }
    }
  }

  lemma PreparedApp(st: State, app: App, sys: System)
    requires Good(st) && Replay(st.log) == Some([])
    ensures var (end, ok) := PrepAll(Begin(st, app), sys);
      && Good(end) && end.n == st.n + 1 && end.app == app && st.log + [Begun(end.n)] <= end.log
      && (!ok ==> end.prepIt < |app.prep| && end.log[|end.log| - 1] == Failed(end.n, end.prepIt))
      && (ok ==> end.prepIt == |app.prep|)
  {
    BeginGood(st, app);
    PrepAllGood(Begin(st, app), sys);
  }

  /**
   * When step `k` of a new app fails, or the app itself, with k the number of steps, then everything owed before was
   * undone before it began, and the undo commands of its steps k - 1 down to 0 follow the failure.
   */
  lemma FailedLaunchUndoes(st: State, apps: seq<App>, id: string, sys: System) returns (before: State)
    requires Good(st) && Executed(st, apps, id, sys).1 == -1
    ensures var (end, k) := (Executed(st, apps, id, sys).0, before.prepIt);
      && Good(before) && FindApp(apps, id) == Some(before.app) && before.n == st.n + 1
      && Terminated(st).log + [Begun(before.n)] <= before.log
      && (k < |before.app.prep| ==> before.log[|before.log| - 1] == Failed(before.n, k))
      && end == Terminated(before) && end.log == before.log + ToCome(before)
  {
    TerminatedIsClean(st);
    var app := FindApp(apps, id).value;
    PreparedApp(Terminated(st), app, sys);
    before := if PrepAll(Begin(Terminated(st), app), sys).1
      then Started(PrepAll(Begin(Terminated(st), app), sys).0)
      else PrepAll(Begin(Terminated(st), app), sys).0;
    FailureTerminates(st, apps, id, sys);
    TerminatedIsClean(before);
  }

  lemma FailureTerminates(st: State, apps: seq<App>, id: string, sys: System)
    requires InRange(st) && Executed(st, apps, id, sys).1 == -1
    ensures FindApp(apps, id).Some?
    ensures var (end, ok) := PrepAll(Begin(Terminated(st), FindApp(apps, id).value), sys);
      Executed(st, apps, id, sys).0 == Terminated(if ok then Started(end) else end)
  {
  }

  // ----- runs -----

  datatype Op = Execute(apps: seq<App>, id: string) | Terminate

  function Step(st: State, op: Op, sys: System): (st': State)
    requires InRange(st)
    ensures InRange(st')
  {
    match op
    case Execute(apps, id) => Executed(st, apps, id, sys).0
    case Terminate => Terminated(st)
  }

  function AfterRun(ops: seq<Op>, sys: System): (st: State)
    ensures InRange(st)
  {
    if ops == [] then State(App("", "", [], []), 0, false, 0, [], [])
    else Step(AfterRun(ops[..|ops| - 1], sys), ops[|ops| - 1], sys)
  }

  /**
   * In every run the log is a stack: undo commands run in the reverse order of completion, none twice, and all before
   * the next launch.
   */
  lemma {:induction false} AlwaysGood(ops: seq<Op>, sys: System)
    ensures Good(AfterRun(ops, sys))
    decreases |ops|
  {
    if ops != [] {
      var st, op := AfterRun(ops[..|ops| - 1], sys), ops[|ops| - 1];
      AlwaysGood(ops[..|ops| - 1], sys);
      match op {
        case Execute(apps, id) => ExecuteKeepsGood(st, apps, id, sys);
        case Terminate => TerminatedIsClean(st);
      }
    }
  }

  /** What one more event does to the completed, the undone and the owed. */
  lemma EventBalances(stack: seq<(nat, nat)>, e: Event, n: nat, k: nat)
    requires After(stack, e).Some?
    ensures (if e == Completed(n, k, true) then 1 else 0) + Times(stack, (n, k))
         == (if e == Undone(n, k) then 1 else 0) + Times(After(stack, e).value, (n, k))
  {
    if e.Completed? {
      TimesConcat(stack, [(e.n, e.k)], (n, k));
    } else if e.Undone? {
      var less := stack[..|stack| - 1];
      assert stack == less + [(e.n, e.k)];
      TimesConcat(less, [(e.n, e.k)], (n, k));
    }
  }

  /** What a stack discipline means: what was completed and can be undone has been undone, or is still owed. */
  lemma {:induction false} UndoneOrOwed(log: seq<Event>, n: nat, k: nat)
    requires Replay(log).Some?
    ensures Times(log, Completed(n, k, true)) == Times(log, Undone(n, k)) + Times(Replay(log).value, (n, k))
    decreases |log|
  {
    if log != [] {
      var less, e := log[..|log| - 1], log[|log| - 1];
      UndoneOrOwed(less, n, k);
      assert log == less + [e];
      TimesConcat(less, [e], Completed(n, k, true));
      TimesConcat(less, [e], Undone(n, k));
      EventBalances(Replay(less).value, e, n, k);
    }
  }

  /** Before every launch, whatever was completed has been undone as often. */
  lemma UndoneBeforeNextLaunch(log: seq<Event>, i: nat, n: nat, k: nat)
    requires Replay(log).Some? && i < |log| && log[i].Begun?
    ensures Times(log[..i], Completed(n, k, true)) == Times(log[..i], Undone(n, k))
  {
    ReplayPrefix(log, i + 1);
    assert log[..i + 1][..i] == log[..i];
    UndoneOrOwed(log[..i], n, k);
  }

  lemma {:induction false} ReplayPrefix(log: seq<Event>, i: nat)
    requires Replay(log).Some? && i <= |log|
    ensures Replay(log[..i]).Some?
    decreases |log|
  {
    if i == |log| {
      assert log[..i] == log;
    } else {
      ReplayPrefix(log[..|log| - 1], i);
      assert log[..|log| - 1][..i] == log[..i];
    }
  }

  // ----- no step completes twice -----

  /** How often step `k` of launch `n` was completed and can be undone. */
  function Done(log: seq<Event>, n: nat, k: nat): nat {
    Times(log, Completed(n, k, true))
  }

  lemma DoneMore(log: seq<Event>, e: Event, n: nat, k: nat)
    ensures Done(log + [e], n, k) == Done(log, n, k) + if e == Completed(n, k, true) then 1 else 0
  {
    TimesConcat(log, [e], Completed(n, k, true));
  }

  /** At most once so far, and not at all in a launch that is still to come. */
  predicate DoneOnce(st: State, n: nat, k: nat) {
    Done(st.log, n, k) <= 1 && (n > st.n ==> Done(st.log, n, k) == 0)
  }

  lemma {:induction false} UndoAllDoes(st: State, n: nat, k: nat)
    requires InRange(st)
    ensures Done(UndoAll(st).log, n, k) == Done(st.log, n, k) && UndoAll(st).n == st.n
    decreases st.prepIt
  {
    if st.prepIt > 0 {
      DoneMore(st.log, Undone(st.n, st.prepIt - 1), n, k);
      UndoAllDoes(UndoStep(st), n, k);
    }
  }

  lemma TerminatedOnce(st: State, n: nat, k: nat)
    requires InRange(st) && DoneOnce(st, n, k)
    ensures DoneOnce(Terminated(st), n, k)
  {
    UndoAllDoes(st.(running := false), n, k);
  }

  /** While a launch is prepared, the steps ahead are not done. */
  lemma {:induction false} PrepAllOnce(st: State, sys: System, n: nat, k: nat)
    requires InRange(st) && DoneOnce(st, n, k) && (n == st.n && k >= st.prepIt ==> Done(st.log, n, k) == 0)
    ensures DoneOnce(PrepAll(st, sys).0, n, k)
    decreases |st.app.prep| - st.prepIt
  {
    if st.prepIt < |st.app.prep| {
      DoneMore(st.log, Completed(st.n, st.prepIt, st.app.prep[st.prepIt].undoCmd != ""), n, k);
      DoneMore(st.log, Failed(st.n, st.prepIt), n, k);
      var step := PrepStep(st, sys);
      if step.1 {
        PrepAllOnce(step.0, sys, n, k);
      }
    }
  }

  lemma LaunchOnce(st: State, sys: System, n: nat, k: nat)
    requires InRange(st) && DoneOnce(st, n, k)
    ensures DoneOnce(Launch(st, sys).0, n, k)
  {
    TerminatedOnce(Started(st), n, k);
  }

  lemma ExecutedOnce(st: State, apps: seq<App>, id: string, sys: System, n: nat, k: nat)
    requires InRange(st) && DoneOnce(st, n, k)
    ensures DoneOnce(Executed(st, apps, id, sys).0, n, k)
  {
    TerminatedOnce(st, n, k);
    if FindApp(apps, id).Some? {
      var clean := Terminated(st);
      var begun := Begin(clean, FindApp(apps, id).value);
      DoneMore(clean.log, Begun(clean.n + 1), n, k);
      PrepAllOnce(begun, sys, n, k);
      var prep := PrepAll(begun, sys);
      if prep.1 {
        LaunchOnce(prep.0, sys, n, k);
      } else {
        TerminatedOnce(prep.0, n, k);
      }
    }
  }

  /** In every run each step of each launch is completed at most once. */
  lemma {:induction false} CompletedOnce(ops: seq<Op>, sys: System, n: nat, k: nat)
    ensures DoneOnce(AfterRun(ops, sys), n, k)
    decreases |ops|
  {
    if ops != [] {
      var st, op := AfterRun(ops[..|ops| - 1], sys), ops[|ops| - 1];
      CompletedOnce(ops[..|ops| - 1], sys, n, k);
      match op {
        case Execute(apps, id) => ExecutedOnce(st, apps, id, sys, n, k);
        case Terminate => TerminatedOnce(st, n, k);
      }
    }
  }

  /**
   * In every run, before every launch: a step that was completed and can be undone has been undone exactly once, and
   * any other step never.
   */
  lemma UndoneExactlyOnce(ops: seq<Op>, sys: System, i: nat, n: nat, k: nat)
    requires i < |AfterRun(ops, sys).log| && AfterRun(ops, sys).log[i].Begun?
    ensures var before := AfterRun(ops, sys).log[..i];
      Times(before, Undone(n, k)) == if Completed(n, k, true) in before then 1 else 0
  {
    var log := AfterRun(ops, sys).log;
    AlwaysGood(ops, sys);
    UndoneBeforeNextLaunch(log, i, n, k);
    CompletedOnce(ops, sys, n, k);
    DonePrefix(log, i, n, k);
  }

  lemma DonePrefix(log: seq<Event>, i: nat, n: nat, k: nat)
    requires i <= |log|
    ensures Done(log[..i], n, k) <= Done(log, n, k)
  {
    assert log == log[..i] + log[i..];
    TimesConcat(log[..i], log[i..], Completed(n, k, true));
  }

  /** And at the end of every run it has been undone exactly once or is still owed exactly once. */
  lemma UndoneOnceOrOwedOnce(ops: seq<Op>, sys: System, n: nat, k: nat)
    ensures var st := AfterRun(ops, sys);
      Times(st.log, Undone(n, k)) + Times(Owed(st.n, st.app.prep, st.prepIt), (n, k))
      == if Completed(n, k, true) in st.log then 1 else 0
  {
    AlwaysGood(ops, sys);
    CompletedOnce(ops, sys, n, k);
    UndoneOrOwed(AfterRun(ops, sys).log, n, k);
  }
}
