/**
 * safe::shared_t of src/thread_safe.h: an element that is made when the first handle to it is taken and destroyed with
 * the last. Every operation holds the lock for the whole of its effect on the count.
 */
module SharedRef {
  import opened Basics

  /**
   * What happens to the memory of an element: placement new, the construct function, the destruct function, the
   * destructor.
   */
  datatype Life = Made | Constructed | ConstructFailed | Destructed | Destroyed

  datatype Shared = Shared(count: nat, log: seq<Life>)

  /** ref(): the new state, and whether the handle has an owner. */
  function Ref(o: Shared, ok: bool): (Shared, bool) {
    if o.count > 0 then (o.(count := o.count + 1), true)
    else if ok then (Shared(1, o.log + [Made, Constructed]), true)
    else (o.(log := o.log + [Made, ConstructFailed]), false)
  }

  /** release(), of a handle with an owner. */
  function Release(o: Shared): Shared
    requires o.count > 0
  {
    if o.count == 1 then Shared(0, o.log + [Destructed, Destroyed]) else o.(count := o.count - 1)
  }

  /** Whether the element is live after this log; None if a step came at the wrong time. */
  function Alive(log: seq<Life>): Option<bool> {
    if log == [] then Some(false)
    else
      match Alive(log[..|log| - 1])
      case None => None
      case Some(live) =>
        match log[|log| - 1]
        case Made => if live then None else Some(false)
        case Constructed => if live then None else Some(true)
        case ConstructFailed => if live then None else Some(false)
        case Destructed => if live then Some(false) else None
        case Destroyed => if live then None else Some(false)
  }

  // ----- handles -----

  /** All shared objects, and all handles with their owners. */
  datatype State = State(objs: map<nat, Shared>, handles: map<nat, Option<nat>>)

  datatype Op =
    | Take(h: nat, s: nat, ok: bool)
    | Null(h: nat)
    | Copy(h: nat, from: nat, ok: bool)
    | Move(h: nat, from: nat)
    | Assign(h: nat, from: nat)
    | Drop(h: nat)
    | Destroy(h: nat)

  /** The owner's count goes down, and the handle has no owner any more. */
  function Released(st: State, h: nat): State
    requires h in st.handles && st.handles[h].Some?
    requires st.handles[h].value in st.objs && st.objs[st.handles[h].value].count > 0
  {
    var s := st.handles[h].value;
    State(st.objs[s := Release(st.objs[s])], st.handles[h := None])
  }

  /** New handles are new; `Drop`, the public release(), asks for an owner. */
  predicate Possible(st: State, op: Op) {
    match op
    case Take(h, s, _) => h !in st.handles && s in st.objs
    case Null(h) => h !in st.handles
    case Copy(h, from, _) => h !in st.handles && from in st.handles
    case Move(h, from) => h !in st.handles && from in st.handles
    case Assign(h, from) => h in st.handles && from in st.handles
    case Drop(h) => h in st.handles && st.handles[h].Some?
    case Destroy(h) => h in st.handles
  }

  /** The owner of an owning handle exists, and counts at least that handle. */
  predicate Counted(st: State) {
    forall h :: h in st.handles && st.handles[h].Some? ==>
      st.handles[h].value in st.objs && st.objs[st.handles[h].value].count > 0
  }

  function After(st: State, op: Op): State
    requires Possible(st, op) && Counted(st)
  {
    match op
    case Take(h, s, ok) =>
      var (o, owns) := Ref(st.objs[s], ok);
      State(st.objs[s := o], st.handles[h := if owns then Some(s) else None])
    case Null(h) => st.(handles := st.handles[h := None])
    case Copy(h, from, ok) =>
      var owner := st.handles[from];
      if owner.None? then st.(handles := st.handles[h := None])
      else State(st.objs[owner.value := Ref(st.objs[owner.value], ok).0], st.handles[h := owner])
    case Move(h, from) => st.(handles := st.handles[h := st.handles[from]][from := None])
    case Assign(h, from) =>
      var st1 := if st.handles[h].Some? then Released(st, h) else st;
      st1.(handles := st1.handles[h := st1.handles[from]][from := None])
    case Drop(h) => Released(st, h)
    case Destroy(h) =>
      var st1 := if st.handles[h].Some? then Released(st, h) else st;
      st1.(handles := st1.handles - {h})
  }

  function Holders(st: State, s: nat): set<nat> {
    set h | h in st.handles && st.handles[h] == Some(s)
  }

  /** The count is the number of owning handles, and the element is live exactly while there are some. */
  ghost predicate Inv(st: State) {
    && (forall s :: s in st.objs ==>
          st.objs[s].count == |Holders(st, s)| && Alive(st.objs[s].log) == Some(st.objs[s].count > 0))
    && (forall h :: h in st.handles && st.handles[h].Some? ==> st.handles[h].value in st.objs)
  }

  lemma InvCounted(st: State)
    requires Inv(st)
    ensures Counted(st)
  {
    forall h | h in st.handles && st.handles[h].Some?
      ensures st.handles[h].value in st.objs && st.objs[st.handles[h].value].count > 0
    {
      assert h in Holders(st, st.handles[h].value);
    }
  }

  lemma Lived(log: seq<Life>, a: Life, b: Life)
    ensures Alive(log + [a, b]) == Alive((log + [a]) + [b])
    ensures (log + [a])[..|log|] == log && ((log + [a]) + [b])[..|log| + 1] == log + [a]
  {
    assert log + [a, b] == (log + [a]) + [b];
  }

  lemma RefLives(o: Shared, ok: bool)
    requires Alive(o.log) == Some(o.count > 0)
    ensures var (o', owns) := Ref(o, ok);
      Alive(o'.log) == Some(o'.count > 0) && o'.count == o.count + if owns then 1 else 0
  {
    Lived(o.log, Made, Constructed);
    Lived(o.log, Made, ConstructFailed);
  }

  lemma ReleaseLives(o: Shared)
    requires Alive(o.log) == Some(o.count > 0) && o.count > 0
    ensures Alive(Release(o).log) == Some(Release(o).count > 0) && Release(o).count == o.count - 1
  {
    Lived(o.log, Destructed, Destroyed);
  }

  lemma AddedTo(a: set<nat>, b: set<nat>, h: nat)
    requires h !in a && b == a + {h}
    ensures |b| == |a| + 1
  {
  }

  lemma HolderElsewhere(st: State, st': State, h: nat, s: nat, t: nat)
    requires t != s && (forall x :: x != h ==> (x in st.handles <==> x in st'.handles))
    requires forall x :: x != h && x in st.handles ==> st'.handles[x] == st.handles[x]
    requires (h in st.handles ==> st.handles[h] != Some(t)) && (h in st'.handles ==> st'.handles[h] != Some(t))
    ensures Holders(st', t) == Holders(st, t)
  {
  }

  /** One handle more, or another owner for a handle without one. */
  lemma HolderMore(st: State, st': State, h: nat, s: nat)
    requires (h in st.handles ==> st.handles[h].None?) && st'.handles == st.handles[h := Some(s)]
    ensures forall t :: |Holders(st', t)| == |Holders(st, t)| + if t == s then 1 else 0
  {
    assert Holders(st', s) == Holders(st, s) + {h};
    AddedTo(Holders(st, s), Holders(st', s), h);
    forall t | t != s
      ensures Holders(st', t) == Holders(st, t)
    {
      HolderElsewhere(st, st', h, s, t);
    }
  }

  lemma HolderLess(st: State, st': State, h: nat, s: nat)
    requires h in st.handles && st.handles[h] == Some(s) && st'.handles == st.handles[h := None]
    ensures forall t :: |Holders(st', t)| == |Holders(st, t)| - if t == s then 1 else 0
  {
    assert Holders(st, s) == Holders(st', s) + {h};
    AddedTo(Holders(st', s), Holders(st, s), h);
    forall t | t != s
      ensures Holders(st', t) == Holders(st, t)
    {
      HolderElsewhere(st, st', h, s, t);
    }
  }

  lemma SameHolders(st: State, st': State)
    requires forall h, s ::
      h in st.handles && st.handles[h] == Some(s) <==> h in st'.handles && st'.handles[h] == Some(s)
    ensures forall s :: Holders(st', s) == Holders(st, s)
  {
  }

  lemma ReleasedKeepsInv(st: State, h: nat)
    requires Inv(st) && Counted(st) && h in st.handles && st.handles[h].Some?
    ensures Inv(Released(st, h))
  {
    var s := st.handles[h].value;
    ReleaseLives(st.objs[s]);
    HolderLess(st, Released(st, h), h, s);
  }

  /** Handing an owner over from one handle to another that has none. */
  lemma HandOver(st: State, h: nat, from: nat)
    requires Inv(st) && from in st.handles && (h in st.handles ==> st.handles[h].None?)
    ensures Inv(st.(handles := st.handles[h := st.handles[from]][from := None]))
  {
    var st' := st.(handles := st.handles[h := st.handles[from]][from := None]);
    if st.handles[from].Some? {
      var s, st1 := st.handles[from].value, st.(handles := st.handles[h := st.handles[from]]);
      HolderMore(st, st1, h, s);
      HolderLess(st1, st', from, s);
    } else {
      SameHolders(st, st');
    }
  }

  lemma RefKeepsInv(st: State, h: nat, s: nat, ok: bool)
    requires Inv(st) && h !in st.handles && s in st.objs
    ensures var (o, owns) := Ref(st.objs[s], ok);
      Inv(State(st.objs[s := o], st.handles[h := if owns then Some(s) else None]))
  {
    var (o, owns) := Ref(st.objs[s], ok);
    var st' := State(st.objs[s := o], st.handles[h := if owns then Some(s) else None]);
    RefLives(st.objs[s], ok);
    if owns {
      HolderMore(st, st', h, s);
    } else {
      SameHolders(st, st');
    }
  }

  lemma StepKeepsInv(st: State, op: Op)
    requires Inv(st) && Possible(st, op) && Counted(st)
    ensures Inv(After(st, op))
  {
    match op {
      case Take(h, s, ok) => RefKeepsInv(st, h, s, ok);
      case Null(h) => SameHolders(st, After(st, op));
      case Copy(h, from, ok) =>
        if st.handles[from].Some? {
          RefKeepsInv(st, h, st.handles[from].value, ok);
        } else {
          SameHolders(st, After(st, op));
        }
      case Move(h, from) => HandOver(st, h, from);
      case Assign(h, from) =>
        if st.handles[h].Some? {
          ReleasedKeepsInv(st, h);
          HandOver(Released(st, h), h, from);
        } else {
          HandOver(st, h, from);
        }
      case Drop(h) => ReleasedKeepsInv(st, h);
      case Destroy(h) =>
        if st.handles[h].Some? {
          ReleasedKeepsInv(st, h);
          SameHolders(Released(st, h), After(st, op));
        } else {
          SameHolders(st, After(st, op));
        }
    }
  }

  // ----- runs -----

  ghost predicate Trace(states: seq<State>, ops: seq<Op>) {
    && |states| == |ops| + 1 && states[0].handles == map[]
    && (forall s :: s in states[0].objs ==> states[0].objs[s] == Shared(0, []))
    && forall i :: 0 <= i < |ops| ==> Follows(states[i], ops[i], states[i + 1])
  }

  ghost predicate Follows(st: State, op: Op, st': State) {
    Possible(st, op) && (Counted(st) ==> st' == After(st, op))
  }

  /**
   * In every run the count is the number of owning handles, and constructing and destructing strictly alternate,
   * failures or not.
   */
  lemma {:induction false} AlwaysInv(states: seq<State>, ops: seq<Op>, k: nat)
    requires Trace(states, ops) && k < |states|
    ensures Inv(states[k])
  {
    if k == 0 {
      assert forall s :: Holders(states[0], s) == {};
    } else {
      AlwaysInv(states, ops, k - 1);
      InvCounted(states[k - 1]);
      assert Follows(states[k - 1], ops[k - 1], states[k]);
      StepKeepsInv(states[k - 1], ops[k - 1]);
    }
  }

  /** A good log never constructs twice in a row: between two constructions there is a destruction. */
  lemma {:induction false} ConstructsAlternate(log: seq<Life>)
    requires Alive(log).Some?
    ensures Times(log, Constructed) == Times(log, Destructed) + if Alive(log).value then 1 else 0
    decreases |log|
  {
    if log != [] {
      var less, last := log[..|log| - 1], log[|log| - 1];
      ConstructsAlternate(less);
      assert log == less + [last];
      TimesConcat(less, [last], Constructed);
      TimesConcat(less, [last], Destructed);
    }
  }

  /** Every element that was made is destroyed, or is live, or its construction failed: those are never destroyed. */
  ghost predicate Balanced(o: Shared) {
    Times(o.log, Made) == Times(o.log, Destroyed) + Times(o.log, ConstructFailed) + if o.count > 0 then 1 else 0
  }

  lemma TimesPair(log: seq<Life>, a: Life, b: Life, x: Life)
    ensures Times(log + [a, b], x) == Times(log, x) + (if a == x then 1 else 0) + (if b == x then 1 else 0)
  {
    TimesConcat(log, [a, b], x);
    assert [a, b][1..] == [b] && [b][1..] == [];
  }

  lemma RefBalances(o: Shared, ok: bool)
    requires Balanced(o)
    ensures Balanced(Ref(o, ok).0)
  {
    var b := if ok then Constructed else ConstructFailed;
    TimesPair(o.log, Made, b, Made);
    TimesPair(o.log, Made, b, Destroyed);
    TimesPair(o.log, Made, b, ConstructFailed);
  }

  lemma ReleaseBalances(o: Shared)
    requires Balanced(o) && o.count > 0
    ensures Balanced(Release(o))
  {
    TimesPair(o.log, Destructed, Destroyed, Made);
    TimesPair(o.log, Destructed, Destroyed, Destroyed);
    TimesPair(o.log, Destructed, Destroyed, ConstructFailed);
  }

  lemma StepBalances(st: State, op: Op, s: nat)
    requires Possible(st, op) && Counted(st) && s in st.objs && Balanced(st.objs[s])
    ensures s in After(st, op).objs && Balanced(After(st, op).objs[s])
  {
    match op {
      case Take(h, t, ok) => RefBalances(st.objs[s], ok);
      case Copy(h, from, ok) => RefBalances(st.objs[s], ok);
      case Null(h) =>
      case Move(h, from) =>
      case _ =>
        if st.objs[s].count > 0 {
          ReleaseBalances(st.objs[s]);
        }
    }
  }

  /** So a failed construction leaves an element that nobody destroys. */
  lemma {:induction false} FailedElementsLeak(states: seq<State>, ops: seq<Op>, k: nat, s: nat)
    requires Trace(states, ops) && k < |states| && s in states[0].objs
    ensures s in states[k].objs && Balanced(states[k].objs[s])
  {
    if k > 0 {
      FailedElementsLeak(states, ops, k - 1, s);
      AlwaysInv(states, ops, k - 1);
      InvCounted(states[k - 1]);
      assert Follows(states[k - 1], ops[k - 1], states[k]);
      StepBalances(states[k - 1], ops[k - 1], s);
    }
  }

  /** The shortest run of that kind: one object, one handle, and a construct function that fails. */
  lemma FailedRun() returns (states: seq<State>, ops: seq<Op>)
    ensures Trace(states, ops) && states[0].objs.Keys == {0} && ops == [Take(1, 0, false)]
    ensures var o := states[1].objs[0];
      o.count == 0 && Times(o.log, Made) == Times(o.log, ConstructFailed) == 1 && Times(o.log, Destroyed) == 0
    ensures states[1].handles == map[1 := None]
  {
    var before := State(map[0 := Shared(0, [])], map[]);
    ops := [Take(1, 0, false)];
    states := [before, After(before, ops[0])];
    TimesPair([], Made, ConstructFailed, Made);
    TimesPair([], Made, ConstructFailed, ConstructFailed);
    TimesPair([], Made, ConstructFailed, Destroyed);
  }

  /** Every failed construction adds one such element, and no later operation takes one away. */
  lemma LeakStays(st: State, op: Op, s: nat)
    requires Possible(st, op) && Counted(st) && s in st.objs
    ensures s in After(st, op).objs
    ensures var before, after := Times(st.objs[s].log, ConstructFailed), Times(After(st, op).objs[s].log,
      ConstructFailed);
      after == before + if st.objs[s].count == 0 && op.Take? && op.s == s && !op.ok then 1 else 0
  {
    TimesPair(st.objs[s].log, Made, Constructed, ConstructFailed);
    TimesPair(st.objs[s].log, Made, ConstructFailed, ConstructFailed);
    TimesPair(st.objs[s].log, Destructed, Destroyed, ConstructFailed);
  }

  // ----- the classes -----

  /** shared_t; `constructs` is whether each call of the construct function succeeds. */
  class SharedObject {
    const constructs: nat -> bool
    var calls: nat
    var count: nat
    ghost var log: seq<Life>

    constructor (constructs: nat -> bool)
      ensures Value() == Shared(0, []) && this.constructs == constructs
    {
      this.constructs := constructs;
      calls, count, log := 0, 0, [];
    }

    ghost function Value(): Shared
      reads this
    {
      Shared(count, log)
    }

    method TakeRef() returns (p: Ptr)
      modifies this
      ensures fresh(p)
      ensures var (o, owns) := Ref(old(Value()), constructs(old(calls)));
        Value() == o && p.owner == if owns then this else null
    {
      if count == 0 {
        log := log + [Made];
        var ok := constructs(calls);
        calls := calls + 1;
        if !ok {
          log := log + [ConstructFailed];
          assert log == old(log) + [Made, ConstructFailed];
          p := new Ptr(null);
          return;
        }
        log := log + [Constructed];
        assert log == old(log) + [Made, Constructed];
      }
      count := count + 1;
      p := new Ptr(this);
    }
  }

  /** ptr_t */
  class Ptr {
    var owner: SharedObject?

    constructor (owner: SharedObject?)
      ensures this.owner == owner
    {
      this.owner := owner;
    }

    /** The copy constructor: a reference is taken, and the handle it came in is emptied. */
    constructor Copied(from: Ptr)
      requires from.owner != null ==> from.owner.count > 0
      modifies from.owner
      ensures owner == from.owner == old(from.owner)
      ensures owner != null ==> owner.Value() == Ref(old(from.owner.Value()), true).0
    {
      owner := from.owner;
      new;
      if owner != null {
        var tmp := owner.TakeRef();
        tmp.owner := null;
      }
    }

    constructor Moved(from: Ptr)
      modifies from
      ensures owner == old(from.owner) && from.owner == null
    {
      owner := from.owner;
      new;
      from.owner := null;
    }

    method ReleaseOwner()
      requires owner != null && owner.count > 0
      modifies this, owner
      ensures owner == null && old(owner).Value() == Release(old(owner.Value()))
    {
      owner.count := owner.count - 1;
      if owner.count == 0 {
        owner.log := owner.log + [Destructed];
        owner.log := owner.log + [Destroyed];
        assert owner.log == old(owner.log) + [Destructed, Destroyed];
      }
      owner := null;
    }

    method MoveAssign(from: Ptr)
      requires owner != null ==> owner.count > 0
      modifies this, from, owner
      ensures from.owner == null && (from != this ==> owner == old(from.owner))
      ensures old(owner) != null ==> old(owner).Value() == Release(old(owner.Value()))
    {
      if owner != null {
        ReleaseOwner();
      }
      var tmp := owner;
      owner := from.owner;
      from.owner := tmp;
    }

    /** The destructor. */
    method Destruct()
      requires owner != null ==> owner.count > 0
      modifies this, owner
      ensures owner == null
      ensures old(owner) != null ==> old(owner).Value() == Release(old(owner.Value()))
    {
      if owner != null {
        ReleaseOwner();
      }
    }
  }
}
