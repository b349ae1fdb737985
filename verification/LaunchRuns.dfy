/**
 * Which commands a launch of src/process.cpp runs, in which order, and what its return code says about how they ended.
 */
module LaunchRuns {
  import opened Basics
  import opened PrepUndo

  /** The do commands of steps `j` to k - 1, in order; a step may have none. */
  function DoFrom(prep: seq<Cmd>, j: nat, k: nat): seq<string>
    requires j <= k <= |prep|
    decreases k - j
  {
    if j == k then [] else (if prep[j].doCmd == "" then [] else [prep[j].doCmd]) + DoFrom(prep, j + 1, k)
  }

  /** The undo commands of the first `k` steps, the last first. */
  function UndoDown(prep: seq<Cmd>, k: nat): seq<string>
    requires k <= |prep|
  {
    if k == 0 then [] else (if prep[k - 1].undoCmd == "" then [] else [prep[k - 1].undoCmd]) + UndoDown(prep, k - 1)
  }

  /**
   * A do command of the app started, was waited for, and exited with 0; the desktop may lack the permission to start
   * it.
   */
  predicate EndedWell(app: App, o: Outcome) {
    && o.exitCode == 0 && !o.waitFailed
    && (o.start == None || (o.start == Some(PermissionDenied) && app.cmd == ""))
  }

  /** The `count` calls from number `from` on ended well. */
  predicate AllWell(app: App, sys: System, from: nat, count: nat) {
    forall c :: from <= c < from + count ==> EndedWell(app, sys(c))
  }

  lemma {:induction false} UndoAllRuns(st: State)
    requires InRange(st)
    ensures UndoAll(st).ran == st.ran + UndoDown(st.app.prep, st.prepIt) && UndoAll(st).app == st.app
    decreases st.prepIt
  {
    if st.prepIt > 0 {
      UndoAllRuns(UndoStep(st));
      var undo := st.app.prep[st.prepIt - 1].undoCmd;
      Regroup(st.ran, if undo == "" then [] else [undo], UndoDown(st.app.prep, st.prepIt - 1));
    }
  }

  lemma Regroup(a: seq<string>, b: seq<string>, c: seq<string>)
    ensures a + (b + c) == a + b + c && a + [] == a
  {
  }

  /** terminate runs the undo commands of all completed steps that have one, the last first, and nothing else. */
  lemma TerminateRuns(st: State)
    requires InRange(st)
    ensures Terminated(st).ran == st.ran + UndoDown(st.app.prep, st.prepIt) && Terminated(st).app == st.app
  {
    UndoAllRuns(st.(running := false));
  }

  /** What preparing from `st` to `end` ran. */
  ghost predicate Prepared(st: State, end: State, ok: bool, sys: System)
    requires InRange(st)
  {
    var prep, j := st.app.prep, st.prepIt;
    && j <= end.prepIt <= |prep| && end.app == st.app
    && AllWell(st.app, sys, |st.ran|, |DoFrom(prep, j, end.prepIt)|)
    && (ok ==> end.prepIt == |prep| && end.ran == st.ran + DoFrom(prep, j, |prep|))
    && (!ok ==>
          && end.prepIt < |prep| && prep[end.prepIt].doCmd != ""
          && end.ran == st.ran + DoFrom(prep, j, end.prepIt) + [prep[end.prepIt].doCmd]
          && !EndedWell(st.app, sys(|st.ran| + |DoFrom(prep, j, end.prepIt)|)))
  }

  /**
   * The do commands run in order, each once, up to the first that does not end well; if there is none, all steps are
   * completed.
   */
  lemma {:induction false} PrepRuns(st: State, sys: System)
    requires InRange(st)
    ensures Prepared(st, PrepAll(st, sys).0, PrepAll(st, sys).1, sys)
    decreases |st.app.prep| - st.prepIt
  {
    if st.prepIt < |st.app.prep| {
      PrepAllIs(st, sys);
      var next := PrepStep(st, sys);
      if next.1 {
        PrepRuns(next.0, sys);
        PreparedBehind(st, sys, PrepAll(next.0, sys).0, PrepAll(next.0, sys).1);
      } else {
        Regroup(st.ran, [], []);
      }
    } else {
      Regroup(st.ran, [], []);
    }
  }

  lemma PreparedBehind(st: State, sys: System, end: State, ok: bool)
    requires st.prepIt < |st.app.prep| && PrepStep(st, sys).1 && Prepared(PrepStep(st, sys).0, end, ok, sys)
    ensures Prepared(st, end, ok, sys)
  {
    StepThenRest(st, sys);
    var next := PrepStep(st, sys).0;
    assert next.ran + DoFrom(st.app.prep, next.prepIt, end.prepIt) == st.ran + DoFrom(st.app.prep, st.prepIt,
      end.prepIt);
  }

  /** The first step of the rest of a prep, when it ended well. */
  lemma StepThenRest(st: State, sys: System)
    requires st.prepIt < |st.app.prep| && PrepStep(st, sys).1
    ensures var (next, prep, j) := (PrepStep(st, sys).0, st.app.prep, st.prepIt);
      && (forall k :: j < k <= |prep| ==> next.ran + DoFrom(prep, j + 1, k) == st.ran + DoFrom(prep, j, k))
      && (forall k :: j < k <= |prep| && AllWell(st.app, sys, |next.ran|, |DoFrom(prep, j + 1, k)|) ==>
            AllWell(st.app, sys, |st.ran|, |DoFrom(prep, j, k)|))
  {
    var c, j := st.app.prep[st.prepIt], st.prepIt;
    var first := if c.doCmd == "" then [] else [c.doCmd];
    assert PrepStep(st, sys).0.ran == st.ran + first;
    forall k | j < k <= |st.app.prep|
      ensures st.ran + first + DoFrom(st.app.prep, j + 1, k) == st.ran + DoFrom(st.app.prep, j, k)
      ensures AllWell(st.app, sys, |st.ran + first|, |DoFrom(st.app.prep, j + 1, k)|) ==>
        AllWell(st.app, sys, |st.ran|, |DoFrom(st.app.prep, j, k)|)
    {
      Regroup(st.ran, first, DoFrom(st.app.prep, j + 1, k));
    }
  }

  /** What a launch of `app` runs: do commands up to step `k`, then the rest if all is well. */
  function Runs(app: App, k: nat, started: bool): seq<string>
    requires k <= |app.prep|
  {
    if k < |app.prep| then DoFrom(app.prep, 0, k) + [app.prep[k].doCmd] + UndoDown(app.prep, k)
    else
      DoFrom(app.prep, 0, k) + app.detached + (if app.cmd == "" then [] else [app.cmd])
      + if started then [] else UndoDown(app.prep, k)
  }

  /** The number of the call that starts the app itself. */
  function StartCall(app: App, c: nat): nat {
    c + |DoFrom(app.prep, 0, |app.prep|)| + |app.detached|
  }

  /** Everything a launch asks for went well, if its first command is call number `c`. */
  predicate LaunchesWell(app: App, sys: System, c: nat) {
    && AllWell(app, sys, c, |DoFrom(app.prep, 0, |app.prep|)|)
    && (app.cmd != "" ==> sys(StartCall(app, c)).start == None)
  }

  lemma LaunchRun(st: State, sys: System)
    requires st.prepIt == |st.app.prep|
    ensures var (end, code) := Launch(st, sys);
      var started := st.app.cmd == "" || sys(|st.ran| + |st.app.detached|).start == None;
      && code == (if started then 0 else -1) && end.app == st.app
      && end.ran == st.ran + (st.app.detached + (if st.app.cmd == "" then [] else [st.app.cmd])
        + if started then [] else UndoDown(st.app.prep, |st.app.prep|))
  {
    TerminateRuns(Started(st));
  }

  lemma {:induction false} DoPrefix(prep: seq<Cmd>, j: nat, k: nat)
    requires j <= k < |prep|
    ensures prep[k].doCmd != "" ==> |DoFrom(prep, j, k)| < |DoFrom(prep, j, |prep|)|
    ensures |DoFrom(prep, j, k)| <= |DoFrom(prep, j, |prep|)|
    decreases k - j
  {
    if j < k {
      DoPrefix(prep, j + 1, k);
    }
  }

  /**
   * A launch first undoes what the app before owed, then runs the do commands in order, each that is not empty once, up
   * to step `k`, the first that does not end well; if there is none, the detached commands and the app itself. A
   * failure is followed by the undo commands of the completed steps. The code is 404 exactly if there is no such app,
   * and 0 exactly if every do command ended well and the app itself started.
   */
  lemma ExecuteRuns(st: State, apps: seq<App>, id: string, sys: System) returns (k: nat)
    requires InRange(st)
    ensures var (end, code) := Executed(st, apps, id, sys);
      var before := st.ran + UndoDown(st.app.prep, st.prepIt);
      match FindApp(apps, id)
      case None => code == 404 && end.ran == before
      case Some(app) =>
        && k <= |app.prep| && AllWell(app, sys, |before|, |DoFrom(app.prep, 0, k)|)
        && (k < |app.prep| ==> app.prep[k].doCmd != "" && !EndedWell(app, sys(|before| + |DoFrom(app.prep, 0, k)|)))
        && end.ran == before + Runs(app, k, code == 0)
        && code == if LaunchesWell(app, sys, |before|) then 0 else -1
  {
    k := 0;
    TerminateRuns(st);
    var found := FindApp(apps, id);
    if found.Some? {
      var begun := Begin(Terminated(st), found.value);
      PrepRuns(begun, sys);
      var prep := PrepAll(begun, sys);
      k := prep.0.prepIt;
      if prep.1 {
        LaunchRun(prep.0, sys);
        RunsAll(begun.ran, found.value, Executed(st, apps, id, sys).1 == 0);
      } else {
        TerminateRuns(prep.0);
        RunsUpTo(begun.ran, found.value, k);
      }
    }
  }

  lemma RunsUpTo(before: seq<string>, app: App, k: nat)
    requires k < |app.prep| && app.prep[k].doCmd != ""
    ensures before + DoFrom(app.prep, 0, k) + [app.prep[k].doCmd] + UndoDown(app.prep, k) == before + Runs(app, k,
      false)
    ensures |DoFrom(app.prep, 0, k)| < |DoFrom(app.prep, 0, |app.prep|)|
  {
    DoPrefix(app.prep, 0, k);
  }

  lemma RunsAll(before: seq<string>, app: App, started: bool)
    ensures before + DoFrom(app.prep, 0, |app.prep|) + (app.detached + (if app.cmd == "" then [] else [app.cmd])
              + if started then [] else UndoDown(app.prep, |app.prep|))
         == before + Runs(app, |app.prep|, started)
  {
    var own := app.detached + if app.cmd == "" then [] else [app.cmd];
    var undo := if started then [] else UndoDown(app.prep, |app.prep|);
    assert Runs(app, |app.prep|, started) == DoFrom(app.prep, 0, |app.prep|) + (own + undo);
  }

  /**
   * From every state, so in every run: a launch returns 0 exactly if the app is there and all it asks for went well.
   */
  lemma ZeroExactly(st: State, apps: seq<App>, id: string, sys: System)
    requires InRange(st)
    ensures Executed(st, apps, id, sys).1 == 0 <==>
      && FindApp(apps, id).Some?
      && LaunchesWell(FindApp(apps, id).value, sys, |st.ran| + |UndoDown(st.app.prep, st.prepIt)|)
  {
    var _ := ExecuteRuns(st, apps, id, sys);
  }

  /** A do command that starts and exits with 1 stops the launch, and the app is not started. */
  lemma ExitCodeStopsLaunch()
    ensures var app := App("1", "game", [Cmd("mount", "")], []);
      var sys := (i: nat) => Outcome(None, false, if i == 0 then 1 else 0);
      var (end, code) := Executed(AfterRun([], sys), [app], "1", sys);
      code == -1 && end.ran == ["mount"]
  {
  }
}
