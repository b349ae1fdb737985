/**
 * Gamepad ids, src/input.cpp: one mask for all sessions; ids are held by the slots of sessions, or, when a session is
 * gone, by a task in the task pool that will free them.
 */
module GamepadIds {
  import opened Basics

  /** platf::MAX_GAMEPADS, and as many slots in each session. */
  const MAX_GAMEPADS := 16

  /** `slots` holds an id or -1 for each controller number; `plugged` are the pads that exist in the platform. */
  datatype State = State(mask: seq<bool>, sessions: map<nat, seq<int>>, queued: seq<nat>, plugged: set<nat>)

  datatype Owner = InSlot(session: nat, n: nat) | Queued(k: nat)

  ghost predicate Owns(st: State, o: Owner, id: nat) {
    match o
    case InSlot(s, n) => s in st.sessions && n < |st.sessions[s]| && st.sessions[s][n] == id
    case Queued(k) => k < |st.queued| && st.queued[k] == id
  }

  ghost predicate Owned(st: State, id: nat) {
    exists o :: Owns(st, o, id)
  }

  /** A bit is set exactly if its id has an owner, which is then the only one, and exactly if that pad exists. */
  ghost predicate Inv(st: State) {
    && |st.mask| == MAX_GAMEPADS && (forall s :: s in st.sessions ==> |st.sessions[s]| == MAX_GAMEPADS)
    && (forall id: nat :: Owned(st, id) <==> id < MAX_GAMEPADS && st.mask[id])
    && (forall o, o', id :: Owns(st, o, id) && Owns(st, o', id) ==> o == o')
    && (forall id: nat :: id in st.plugged <==> id < MAX_GAMEPADS && st.mask[id])
  }

  // ----- the operations -----

  function FirstFree(mask: seq<bool>, x: nat): (id: nat)
    requires x <= |mask|
    ensures x <= id <= |mask| && (id < |mask| ==> !mask[id]) && forall i :: x <= i < id ==> mask[i]
    decreases |mask| - x
  {
    if x == |mask| || !mask[x] then x else FirstFree(mask, x + 1)
  }

  predicate Slot(st: State, s: nat, n: int) {
    s in st.sessions && 0 <= n < |st.sessions[s]|
  }

  /** alloc_id, alloc_gamepad, and free_id again if that failed. */
  function Allocate(st: State, s: nat, n: nat, ok: bool): State
    requires Slot(st, s, n)
  {
    var id := FirstFree(st.mask, 0);
    if id == |st.mask| || !ok then st
    else State(st.mask[id := true], st.sessions[s := st.sessions[s][n := id]], st.queued, st.plugged + {id})
  }

  /** free_gamepad */
  function Release(st: State, id: nat): State
    requires id < |st.mask|
  {
    st.(mask := st.mask[id := false], plugged := st.plugged - {id})
  }

  function Arrival(st: State, s: nat, n: int, ok: bool): State
    requires s in st.sessions
  {
    if !Slot(st, s, n) || st.sessions[s][n] >= 0 then st else Allocate(st, s, n, ok)
  }

  function MultiController(st: State, s: nat, n: int, active: set<int>, ok: bool): State
    requires s in st.sessions && (Slot(st, s, n) ==> st.sessions[s][n] < |st.mask|)
  {
    if !Slot(st, s, n) then st
    else
      var id := st.sessions[s][n];
      if n in active && id < 0 then Allocate(st, s, n, ok)
      else if n !in active && id >= 0 then Release(st, id).(sessions := st.sessions[s := st.sessions[s][n := -1]])
      else st
  }

  /** The ids that the destructors of a session's slots hand to the task pool. */
  function Held(slots: seq<int>): (ids: seq<nat>) {
    if slots == [] then []
    else Held(slots[..|slots| - 1]) + if slots[|slots| - 1] >= 0 then [slots[|slots| - 1]] else []
  }

  function Destroy(st: State, s: nat): State
    requires s in st.sessions
  {
    st.(sessions := st.sessions - {s}, queued := st.queued + Held(st.sessions[s]))
  }

  function NoSlots(): (slots: seq<int>)
    ensures |slots| == MAX_GAMEPADS && forall i :: 0 <= i < |slots| ==> slots[i] == -1
  {
    seq(MAX_GAMEPADS, i => -1)
  }

  function Connect(st: State, s: nat): State {
    if s in st.sessions then st else st.(sessions := st.sessions[s := NoSlots()])
  }

  /** The task pool runs the oldest task. */
  function RunTask(st: State): State
    requires st.queued != [] ==> st.queued[0] < |st.mask|
  {
    if st.queued == [] then st else Release(st, st.queued[0]).(queued := st.queued[1..])
  }

  // ----- what every operation keeps -----

  /** A slot gets a new id, and nothing else changes hands. */
  lemma AllocateKeepsInv(st: State, s: nat, n: nat, ok: bool)
    requires Inv(st) && Slot(st, s, n) && st.sessions[s][n] < 0
    ensures Inv(Allocate(st, s, n, ok))
    ensures !ok ==> Allocate(st, s, n, ok) == st
  {
    var new', st' := FirstFree(st.mask, 0), Allocate(st, s, n, ok);
    if st' != st {
      forall o: Owner, id: nat
        ensures Owns(st', o, id) <==> (if o == InSlot(s, n) then id == new' else Owns(st, o, id))
      {
      }
      assert !Owned(st, new');
      assert Owns(st', InSlot(s, n), new');
      forall id: nat
        ensures Owned(st', id) <==> id == new' || Owned(st, id)
      {
        if Owned(st, id) {
          var o :| Owns(st, o, id);
          assert Owns(st', o, id);
        }
        if Owned(st', id) && id != new' {
          var o :| Owns(st', o, id);
          assert Owns(st, o, id);
        }
      }
      OneOwner(st, st', InSlot(s, n), new');
    }
  }

  lemma OneOwner(st: State, st': State, new': Owner, id': nat)
    requires Inv(st) && !Owned(st, id')
    requires forall o: Owner, id: nat :: Owns(st', o, id) <==> (if o == new' then id == id' else Owns(st, o, id))
    ensures forall o, o', id :: Owns(st', o, id) && Owns(st', o', id) ==> o == o'
  {
    forall o, o', id | Owns(st', o, id) && Owns(st', o', id)
      ensures o == o'
    {
      if o != new' {
        assert Owns(st, o, id) && Owned(st, id);
      }
      if o' != new' {
        assert Owns(st, o', id) && Owned(st, id);
      }
    }
  }

  /** A slot gives up its id. */
  lemma FreedSlot(st: State, s: nat, n: nat)
    requires Inv(st) && Slot(st, s, n) && st.sessions[s][n] >= 0
    ensures var id := st.sessions[s][n];
      id < |st.mask| && Inv(Release(st, id).(sessions := st.sessions[s := st.sessions[s][n := -1]]))
  {
    var gone := st.sessions[s][n];
    assert Owns(st, InSlot(s, n), gone) && Owned(st, gone);
    var st' := Release(st, gone).(sessions := st.sessions[s := st.sessions[s][n := -1]]);
    forall o: Owner, id: nat
      ensures Owns(st', o, id) <==> o != InSlot(s, n) && Owns(st, o, id)
    {
    }
    LostOwner(st, st', InSlot(s, n), gone);
  }

  /** What follows if one owner is gone, and its id with it. */
  lemma LostOwner(st: State, st': State, old': Owner, gone: nat)
    requires Inv(st) && Owns(st, old', gone)
    requires forall o: Owner, id: nat :: Owns(st', o, id) <==> o != old' && Owns(st, o, id)
    ensures forall id: nat :: Owned(st', id) <==> id != gone && Owned(st, id)
    ensures forall o, o', id :: Owns(st', o, id) && Owns(st', o', id) ==> o == o'
  {
    forall id: nat
      ensures Owned(st', id) <==> id != gone && Owned(st, id)
    {
      if Owned(st', id) {
        var o :| Owns(st', o, id);
        assert Owns(st, o, id);
      }
      if id != gone && Owned(st, id) {
        var o :| Owns(st, o, id);
        assert Owns(st', o, id);
      }
    }
  }

  lemma RunTaskKeepsInv(st: State)
    requires Inv(st)
    ensures st.queued != [] ==> st.queued[0] < |st.mask|
    ensures Inv(RunTask(st))
  {
    if st.queued != [] {
      var gone := st.queued[0];
      assert Owns(st, Queued(0), gone) && Owned(st, gone);
      var st' := RunTask(st);
      forall id: nat
        ensures Owned(st', id) <==> id != gone && Owned(st, id)
      {
        if Owned(st', id) {
          var o :| Owns(st', o, id);
          assert Owns(st, Before(o), id);
        }
        if id != gone && Owned(st, id) {
          var o :| Owns(st, o, id);
          assert Owns(st', if o.Queued? then Queued(o.k - 1) else o, id);
        }
      }
      forall o, o', id | Owns(st', o, id) && Owns(st', o', id)
        ensures o == o'
      {
        assert Owns(st, Before(o), id) && Owns(st, Before(o'), id);
      }
    }
  }

  /** The owner that this one was before the oldest task ran. */
  function Before(o: Owner): Owner {
    if o.Queued? then Queued(o.k + 1) else o
  }

  lemma {:induction false} HeldFrom(slots: seq<int>, k: nat) returns (n: nat)
    requires k < |Held(slots)|
    ensures n < |slots| && slots[n] == Held(slots)[k]
    decreases |slots|
  {
    var front := slots[..|slots| - 1];
    if k < |Held(front)| {
      n := HeldFrom(front, k);
    } else {
      n := |slots| - 1;
    }
  }

  lemma {:induction false} HeldAt(slots: seq<int>, n: nat) returns (k: nat)
    requires n < |slots| && slots[n] >= 0
    ensures k < |Held(slots)| && Held(slots)[k] == slots[n]
    decreases |slots|
  {
    if n == |slots| - 1 {
      k := |Held(slots)| - 1;
    } else {
      k := HeldAt(slots[..|slots| - 1], n);
    }
  }

  lemma {:induction false} HeldOnce(slots: seq<int>, k: nat, k': nat)
    requires forall i, j :: 0 <= i < j < |slots| && slots[i] >= 0 ==> slots[i] != slots[j]
    requires k < k' < |Held(slots)|
    ensures Held(slots)[k] != Held(slots)[k']
    decreases |slots|
  {
    var front := slots[..|slots| - 1];
    if k' < |Held(front)| {
      HeldOnce(front, k, k');
    } else {
      var n := HeldFrom(front, k);
      assert slots[n] == front[n];
    }
  }

  /** Who owned what a task of a destroyed session will free. */
  lemma OwnerBefore(st: State, s: nat, o: Owner, id: nat) returns (o': Owner)
    requires s in st.sessions && Owns(Destroy(st, s), o, id)
    ensures Owns(st, o', id)
    ensures o' == o || (o.Queued? && o.k >= |st.queued| && o'.InSlot? && o'.session == s)
    ensures o.Queued? && o.k < |st.queued| ==> o' == o
  {
    o' := o;
    if o.Queued? && o.k >= |st.queued| {
      var n := HeldFrom(st.sessions[s], o.k - |st.queued|);
      o' := InSlot(s, n);
    }
  }

  lemma SlotsDiffer(st: State, s: nat)
    requires Inv(st) && s in st.sessions
    ensures forall i, j :: 0 <= i < j < |st.sessions[s]| && st.sessions[s][i] >= 0 ==>
      st.sessions[s][i] != st.sessions[s][j]
  {
    forall i, j | 0 <= i < j < |st.sessions[s]| && st.sessions[s][i] >= 0
      ensures st.sessions[s][i] != st.sessions[s][j]
    {
      assert Owns(st, InSlot(s, i), st.sessions[s][i]);
      if st.sessions[s][i] == st.sessions[s][j] {
        assert Owns(st, InSlot(s, j), st.sessions[s][i]);
      }
    }
  }

  lemma DestroyedOwners(st: State, s: nat, o: Owner, o': Owner, id: nat)
    requires Inv(st) && s in st.sessions && Owns(Destroy(st, s), o, id) && Owns(Destroy(st, s), o', id)
    ensures o == o'
  {
    var p := OwnerBefore(st, s, o, id);
    var p' := OwnerBefore(st, s, o', id);
    if o != o' {
      var n := |st.queued|;
      SlotsDiffer(st, s);
      if o.k < o'.k {
        HeldOnce(st.sessions[s], o.k - n, o'.k - n);
      } else {
        HeldOnce(st.sessions[s], o'.k - n, o.k - n);
      }
    }
  }

  lemma DestroyKeepsInv(st: State, s: nat)
    requires Inv(st) && s in st.sessions
    ensures Inv(Destroy(st, s))
  {
    var st' := Destroy(st, s);
    forall id: nat
      ensures Owned(st', id) <==> Owned(st, id)
    {
      if Owned(st', id) {
        var o :| Owns(st', o, id);
        var p := OwnerBefore(st, s, o, id);
      }
      if Owned(st, id) {
        var o :| Owns(st, o, id);
        if o.InSlot? && o.session == s {
          var k := HeldAt(st.sessions[s], o.n);
          assert Owns(st', Queued(|st.queued| + k), id);
        } else {
          assert Owns(st', o, id);
        }
      }
    }
    forall o, o', id | Owns(st', o, id) && Owns(st', o', id)
      ensures o == o'
    {
      DestroyedOwners(st, s, o, o', id);
    }
  }

  lemma ConnectKeepsInv(st: State, s: nat)
    requires Inv(st)
    ensures Inv(Connect(st, s))
  {
    var st' := Connect(st, s);
    forall o: Owner, id: nat
      ensures Owns(st', o, id) <==> Owns(st, o, id)
    {
    }
    forall id: nat
      ensures Owned(st', id) <==> Owned(st, id)
    {
      if Owned(st, id) {
        var o :| Owns(st, o, id);
        assert Owns(st', o, id);
      }
    }
  }

  // ----- who has a pad -----

  /** The slot has a pad. */
  predicate HasPad(st: State, s: nat, n: nat)
    requires Slot(st, s, n)
  {
    st.sessions[s][n] >= 0
  }

  predicate SomeFree(st: State) {
    exists id :: 0 <= id < |st.mask| && !st.mask[id]
  }

  /** All slots but this one, of all sessions, are as they were. */
  ghost predicate OthersKept(st: State, st': State, s: nat, n: int) {
    && st'.sessions.Keys == st.sessions.Keys && st'.queued == st.queued
    && forall t, k :: Slot(st, t, k) && (t, k) != (s, n) ==> Slot(st', t, k) && st'.sessions[t][k] == st.sessions[t][k]
  }

  lemma AllocateGives(st: State, s: nat, n: nat, ok: bool)
    requires Inv(st) && Slot(st, s, n) && !HasPad(st, s, n)
    ensures var st' := Allocate(st, s, n, ok);
      OthersKept(st, st', s, n) && Slot(st', s, n) && (HasPad(st', s, n) <==> ok && SomeFree(st))
  {
    var id := FirstFree(st.mask, 0);
    if id < |st.mask| {
      assert !st.mask[id];
    }
  }

  /**
   * An arrival gives its slot a pad exactly if the platform makes one and an id is free; a slot that has one keeps it.
   */
  lemma ArrivalGives(st: State, s: nat, n: int, ok: bool)
    requires Inv(st) && s in st.sessions
    ensures var st' := Arrival(st, s, n, ok);
      && OthersKept(st, st', s, n)
      && (Slot(st, s, n) ==> Slot(st', s, n) && (HasPad(st', s, n) <==> HasPad(st, s, n) || (ok && SomeFree(st))))
      && (Slot(st, s, n) && HasPad(st, s, n) ==> st' == st)
  {
    if Slot(st, s, n) && !HasPad(st, s, n) {
      AllocateGives(st, s, n, ok);
    }
  }

  /**
   * A state packet leaves its slot with a pad exactly if its controller is active, and had one or gets one; a pad that
   * stays keeps its id.
   */
  lemma StatePacketGives(st: State, s: nat, n: int, active: set<int>, ok: bool)
    requires Inv(st) && s in st.sessions
    ensures Slot(st, s, n) ==> st.sessions[s][n] < |st.mask|
    ensures var st' := MultiController(st, s, n, active, ok);
      && OthersKept(st, st', s, n)
      && (Slot(st, s, n) ==>
            Slot(st', s, n) && (HasPad(st', s, n) <==> n in active && (HasPad(st, s, n) || (ok && SomeFree(st)))))
      && (Slot(st, s, n) && n in active && HasPad(st, s, n) ==> st' == st)
  {
    if Slot(st, s, n) {
      SlotsInRange(st, s, n);
      if !HasPad(st, s, n) {
        AllocateGives(st, s, n, ok);
      }
    }
  }

  // ----- runs -----

  datatype Op =
    | Connected(s: nat)
    | Arrived(s: nat, n: int, ok: bool)
    | Controllers(s: nat, n: int, active: set<int>, ok: bool)
    | Destroyed(s: nat)
    | TaskRun

  predicate Possible(st: State, op: Op) {
    match op case Connected(_) => true case TaskRun => true case _ => op.s in st.sessions
  }

  lemma SlotsInRange(st: State, s: nat, n: nat)
    requires Inv(st) && Slot(st, s, n)
    ensures st.sessions[s][n] < |st.mask|
  {
    if st.sessions[s][n] >= 0 {
      assert Owns(st, InSlot(s, n), st.sessions[s][n]) && Owned(st, st.sessions[s][n]);
    }
  }

  ghost predicate Step(st: State, op: Op, st': State) {
    Possible(st, op) &&
    match op
    case Connected(s) => st' == Connect(st, s)
    case Arrived(s, n, ok) => st' == Arrival(st, s, n, ok)
    case Controllers(s, n, active, ok) =>
      (Slot(st, s, n) ==> st.sessions[s][n] < |st.mask|) && st' == MultiController(st, s, n, active, ok)
    case Destroyed(s) => st' == Destroy(st, s)
    case TaskRun => (st.queued != [] ==> st.queued[0] < |st.mask|) && st' == RunTask(st)
  }

  /** The bits that Step asks for are always there. */
  lemma StepDefined(st: State, op: Op) returns (st': State)
    requires Inv(st) && Possible(st, op)
    ensures Step(st, op, st')
  {
    match op {
      case Connected(s) => st' := Connect(st, s);
      case Arrived(s, n, ok) => st' := Arrival(st, s, n, ok);
      case Controllers(s, n, active, ok) =>
        if Slot(st, s, n) {
          SlotsInRange(st, s, n);
        }
        st' := MultiController(st, s, n, active, ok);
      case Destroyed(s) => st' := Destroy(st, s);
      case TaskRun =>
        RunTaskKeepsInv(st);
        st' := RunTask(st);
    }
  }

  lemma StepKeepsInv(st: State, op: Op, st': State)
    requires Inv(st) && Step(st, op, st')
    ensures Inv(st')
  {
    match op {
      case Connected(s) => ConnectKeepsInv(st, s);
      case Arrived(s, n, ok) =>
        if Slot(st, s, n) && st.sessions[s][n] < 0 {
          AllocateKeepsInv(st, s, n, ok);
        }
      case Controllers(s, n, active, ok) =>
        if Slot(st, s, n) && n in active && st.sessions[s][n] < 0 {
          AllocateKeepsInv(st, s, n, ok);
        } else if Slot(st, s, n) && n !in active && st.sessions[s][n] >= 0 {
          FreedSlot(st, s, n);
        }
      case Destroyed(s) => DestroyKeepsInv(st, s);
      case TaskRun => RunTaskKeepsInv(st);
    }
  }

  /** A run, each state following from the one before. */
  ghost predicate Trace(states: seq<State>, ops: seq<Op>) {
    && |states| == |ops| + 1
    && states[0] == State(seq(MAX_GAMEPADS, i => false), map[], [], {})
    && forall i :: 0 <= i < |ops| ==> Step(states[i], ops[i], states[i + 1])
  }

  /**
   * In every reachable state a bit is set exactly if one owner holds the id, and exactly if the platform has that pad.
   */
  lemma {:induction false} AlwaysInv(states: seq<State>, ops: seq<Op>, k: nat)
    requires Trace(states, ops) && k < |states|
    ensures Inv(states[k])
  {
    if k == 0 {
      assert forall o: Owner, id: nat :: !Owns(states[0], o, id);
    } else {
      AlwaysInv(states, ops, k - 1);
      StepKeepsInv(states[k - 1], ops[k - 1], states[k]);
    }
  }

  /** When all sessions are gone and all tasks have run, every id is free again and no pad is left. */
  lemma NothingLeaks(st: State)
    requires Inv(st) && st.sessions == map[] && st.queued == []
    ensures st.plugged == {} && forall id :: 0 <= id < MAX_GAMEPADS ==> !st.mask[id]
  {
    forall id | 0 <= id < MAX_GAMEPADS
      ensures !st.mask[id] && id !in st.plugged
    {
      if st.mask[id] {
        assert Owned(st, id);
        var o :| Owns(st, o, id);
      }
    }
    assert forall id: nat :: id !in st.plugged;
  }

  /** A new session has as many slots as there are ids, all without a pad. */
  lemma ConnectGives(st: State, s: nat)
    requires s !in st.sessions
    ensures var st' := Connect(st, s);
      && st'.sessions.Keys == st.sessions.Keys + {s} && st'.mask == st.mask && st'.queued == st.queued
      && forall n: nat :: n < MAX_GAMEPADS ==> Slot(st', s, n) && !HasPad(st', s, n)
  {
  }

  /** The next `k` tasks run, one after the other. */
  lemma {:induction false} TasksRun(st: State, k: nat) returns (st': State)
    requires Inv(st) && k <= |st.queued|
    ensures Inv(st') && st'.sessions == st.sessions && st'.queued == st.queued[k..]
    ensures forall id :: 0 <= id < MAX_GAMEPADS ==> (st'.mask[id] <==> st.mask[id] && id !in st.queued[..k])
    decreases k
  {
    st' := st;
    if k > 0 {
      st' := TasksRun(st, k - 1);
      RunTaskKeepsInv(st');
      assert st.queued[..k] == st.queued[..k - 1] + [st.queued[k - 1]];
      st' := RunTask(st');
    }
  }

  /** Once the last session is gone, running what its destructors queued frees every id and unplugs every pad. */
  lemma AllFreedInTheEnd(st: State) returns (st': State)
    requires Inv(st) && st.sessions == map[]
    ensures Inv(st') && st'.sessions == map[] && st'.queued == [] && st'.plugged == {}
    ensures forall id :: 0 <= id < MAX_GAMEPADS ==> !st'.mask[id]
  {
    st' := TasksRun(st, |st.queued|);
    NothingLeaks(st');
  }

  // ----- the code -----

  class Input {
    /** config::input.controller */
    const controller: bool
    var mask: seq<bool>
    var sessions: map<nat, seq<int>>
    var queued: seq<nat>
    ghost var plugged: set<nat>

    ghost function Now(): State
      reads this
    {
      State(mask, sessions, queued, plugged)
    }

    constructor (controller: bool)
      ensures Now() == State(seq(MAX_GAMEPADS, i => false), map[], [], {}) && this.controller == controller
    {
      this.controller := controller;
      mask, sessions, queued, plugged := seq(MAX_GAMEPADS, i => false), map[], [], {};
    }

    method AllocId() returns (id: int)
      modifies this`mask
      ensures var x := FirstFree(old(mask), 0);
        if x == |old(mask)| then id == -1 && mask == old(mask) else id == x && mask == old(mask)[x := true]
    {
      var x := 0;
      while x < |mask|
        invariant x <= |mask| && mask == old(mask) && FirstFree(mask, x) == FirstFree(mask, 0)
      {
        if !mask[x] {
          mask := mask[x := true];
          return x;
        }
        x := x + 1;
      }
      return -1;
    }

    method FreeId(id: nat)
      requires id < |mask|
      modifies this`mask
      ensures mask == old(mask)[id := false]
    {
      mask := mask[id := false];
    }

    method FreeGamepad(id: nat)
      requires id < |mask|
      modifies this`mask, this`plugged
      ensures Now() == Release(old(Now()), id)
    {
      plugged := plugged - {id};
      FreeId(id);
    }

    /** The common part of both packets; `ok` is whether the platform can make the pad. */
    method NewGamepad(s: nat, n: nat, ok: bool)
      requires Slot(Now(), s, n)
      modifies this
      ensures Now() == Allocate(old(Now()), s, n, ok) && queued == old(queued)
    {
      var id := AllocId();
      if id < 0 {
        return;
      }
      if !ok {
        FreeId(id);
        assert mask == old(mask);
        return;
      }
      plugged := plugged + {id};
      sessions := sessions[s := sessions[s][n := id]];
    }

    method ControllerArrival(s: nat, n: int, ok: bool)
      requires s in sessions
      modifies this
      ensures Now() == if controller then Arrival(old(Now()), s, n, ok) else old(Now())
    {
      if !controller || n < 0 || n >= |sessions[s]| {
        return;
      }
      if sessions[s][n] >= 0 {
        return;
      }
      NewGamepad(s, n, ok);
    }

    method Controllers(s: nat, n: int, active: set<int>, ok: bool)
      requires s in sessions && (Slot(Now(), s, n) ==> sessions[s][n] < |mask|)
      modifies this
      ensures Now() == if controller then MultiController(old(Now()), s, n, active, ok) else old(Now())
    {
      if !controller || n < 0 || n >= |sessions[s]| {
        return;
      }
      if n in active && sessions[s][n] < 0 {
        NewGamepad(s, n, ok);
      } else if n !in active && sessions[s][n] >= 0 {
        FreeGamepad(sessions[s][n]);
        sessions := sessions[s := sessions[s][n := -1]];
      }
    }

    /** The destructors of a session's gamepads. */
    method DestroySession(s: nat)
      requires s in sessions
      modifies this`sessions, this`queued
      ensures Now() == Destroy(old(Now()), s)
    {
      var slots := sessions[s];
      sessions := sessions - {s};
      var i := 0;
      while i < |slots|
        invariant i <= |slots| && sessions == old(sessions) - {s} && queued == old(queued) + Held(slots[..i])
      {
        assert slots[..i + 1][..i] == slots[..i];
        if slots[i] >= 0 {
          queued := queued + [slots[i]];
        }
        i := i + 1;
      }
      assert slots[..i] == slots;
    }

    method RunQueued()
      requires queued != [] ==> queued[0] < |mask|
      modifies this
      ensures Now() == RunTask(old(Now()))
    {
      if queued != [] {
        var id := queued[0];
        queued := queued[1..];
        FreeGamepad(id);
      }
    }
  }
}
