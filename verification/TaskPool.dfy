/**
 * The task queue of src/task_pool.h: a FIFO of immediate tasks and a vector of timers
 * that is kept in descending order of time, so that the next one to fire is the last.
 */
module TaskPool {
  import opened Basics

  type Time = int
  type TaskId = nat

  datatype Timer = Timer(at: Time, id: TaskId)

  /** The part of the pool that the scheduling decisions depend on. */
  datatype Queues = Queues(tasks: seq<TaskId>, timers: seq<Timer>)

  predicate Sorted(ts: seq<Timer>) {
    forall i, j :: 0 <= i < j < |ts| ==> ts[i].at >= ts[j].at
  }

  function Ids(ts: seq<Timer>): (ids: seq<TaskId>)
    ensures |ids| == |ts|
    ensures forall i :: 0 <= i < |ts| ==> ids[i] == ts[i].id
  {
    seq(|ts|, i requires 0 <= i < |ts| => ts[i].id)
  }

  /** How often task `id` is waiting in the queues. */
  function Pending(q: Queues, id: TaskId): nat {
    Times(q.tasks, id) + Times(Ids(q.timers), id)
  }

  /** Where a timer due at `at` goes: in front of the first entry that fires earlier. */
  function Slot(ts: seq<Timer>, at: Time): (p: nat)
    ensures p <= |ts|
    ensures forall i :: 0 <= i < p ==> ts[i].at >= at
    ensures p < |ts| ==> ts[p].at < at
  {
    if ts == [] || ts[0].at < at then 0 else 1 + Slot(ts[1..], at)
  }

  function Insert(ts: seq<Timer>, t: Timer): seq<Timer> {
    ts[..Slot(ts, t.at)] + [t] + ts[Slot(ts, t.at)..]
  }

  /** Entry `i` with a new time, moved to the place that time would have had among the entries before it. */
  function Reschedule(ts: seq<Timer>, i: nat, at: Time): seq<Timer>
    requires i < |ts|
  {
    Insert(ts[..i], Timer(at, ts[i].id)) + ts[i + 1..]
  }

  function Remove(ts: seq<Timer>, i: nat): seq<Timer>
    requires i < |ts|
  {
    ts[..i] + ts[i + 1..]
  }

  /** The position of the first entry with this id, or the length. */
  function Find(ts: seq<Timer>, id: TaskId): (i: nat)
    ensures i <= |ts|
    ensures forall j :: 0 <= j < i ==> ts[j].id != id
    ensures i < |ts| ==> ts[i].id == id
  {
    if ts == [] || ts[0].id == id then 0 else 1 + Find(ts[1..], id)
  }

  /** One pass of swaps from entry `i` to the front: smaller time goes to the back. */
  function Bubble(ts: seq<Timer>, i: nat): (r: seq<Timer>)
    requires i < |ts|
    ensures |r| == |ts|
    decreases i
  {
    if i == 0 then ts
    else if ts[i].at > ts[i - 1].at then Bubble(ts[i := ts[i - 1]][i - 1 := ts[i]], i - 1)
    else Bubble(ts, i - 1)
  }

  function Delayed(ts: seq<Timer>, id: TaskId, at: Time): seq<Timer> {
    var i := Find(ts, id);
    if i < |ts| then Bubble(ts[i := Timer(at, id)], i) else ts
  }

  function Cancelled(ts: seq<Timer>, id: TaskId): seq<Timer> {
    var i := Find(ts, id);
    if i < |ts| then Remove(ts, i) else ts
  }

  predicate Ready(q: Queues, now: Time) {
    q.tasks != [] || (q.timers != [] && q.timers[|q.timers| - 1].at <= now)
  }

  function Next(q: Queues): Option<Time> {
    if q.timers == [] then None else Some(q.timers[|q.timers| - 1].at)
  }

  /** What pop() returns and leaves behind. */
  function TakeNext(q: Queues, now: Time): (Queues, Option<TaskId>) {
    if q.tasks != [] then
      (q.(tasks := q.tasks[1..]), Some(q.tasks[0]))
    else if q.timers != [] && q.timers[|q.timers| - 1].at <= now then
      (q.(timers := q.timers[..|q.timers| - 1]), Some(q.timers[|q.timers| - 1].id))
    else
      (q, None)
  }

  // ----- insertion, rescheduling and removal -----

  /**
   * A timer goes behind every entry that fires no earlier and in front of the rest: among equal times it fires first.
   */
  lemma InsertSplits(ts: seq<Timer>, t: Timer)
    requires Sorted(ts)
    ensures Sorted(Insert(ts, t))
    ensures exists p :: (
      && 0 <= p <= |ts|
      && Insert(ts, t) == ts[..p] + [t] + ts[p..]
      && (forall x :: x in ts[..p] ==> x.at >= t.at)
      && (forall x :: x in ts[p..] ==> x.at < t.at))
  {
    var p := Slot(ts, t.at);
    forall i | p <= i < |ts|
      ensures ts[i].at < t.at
    {
      assert ts[p].at < t.at;
    }
    PutBetweenSorted(ts, t, p);
    assert Insert(ts, t) == ts[..p] + [t] + ts[p..];
  }

  lemma PutBetweenSorted(ts: seq<Timer>, t: Timer, p: nat)
    requires Sorted(ts) && p <= |ts|
    requires (forall i :: 0 <= i < p ==> ts[i].at >= t.at) && forall i :: p <= i < |ts| ==> ts[i].at < t.at
    ensures Sorted(ts[..p] + [t] + ts[p..])
  {
    var r := ts[..p] + [t] + ts[p..];
    assert forall k :: 0 <= k < |r| ==> r[k] == (if k < p then ts[k] else if k == p then t else ts[k - 1]);
  }

  lemma InsertIds(ts: seq<Timer>, t: Timer, id: TaskId)
    ensures Times(Ids(Insert(ts, t)), id) == Times(Ids(ts), id) + if t.id == id then 1 else 0
  {
    var a, b := ts[..Slot(ts, t.at)], ts[Slot(ts, t.at)..];
    assert ts == a + b;
    IdsConcat(a, b, id);
    IdsConcat(a, [t], id);
    IdsConcat(a + [t], b, id);
    assert Ids([t]) == [t.id] && [t.id][1..] == [];
  }

  lemma IdsConcat(a: seq<Timer>, b: seq<Timer>, id: TaskId)
    ensures Times(Ids(a + b), id) == Times(Ids(a), id) + Times(Ids(b), id)
  {
    assert Ids(a + b) == Ids(a) + Ids(b);
    TimesConcat(Ids(a), Ids(b), id);
  }

  lemma RemoveIds(ts: seq<Timer>, i: nat, id: TaskId)
    requires i < |ts|
    ensures Times(Ids(Remove(ts, i)), id) == Times(Ids(ts), id) - if ts[i].id == id then 1 else 0
  {
    TimesSplit(Ids(ts), i, id);
    assert Ids(ts)[..i] + Ids(ts)[i + 1..] == Ids(Remove(ts, i));
  }

  lemma TimesSwap<T>(s: seq<T>, i: nat, x: T)
    requires 0 < i < |s|
    ensures Times(s[i := s[i - 1]][i - 1 := s[i]], x) == Times(s, x)
  {
    var a, b := s[..i - 1], s[i + 1..];
    var r := s[i := s[i - 1]][i - 1 := s[i]];
    SwapParts(s, i);
    TimesAround(a, s[i - 1], s[i], b, x);
    TimesAround(a, s[i], s[i - 1], b, x);
  }

  lemma SwapParts<T>(s: seq<T>, i: nat)
    requires 0 < i < |s|
    ensures s == s[..i - 1] + [s[i - 1], s[i]] + s[i + 1..]
    ensures s[i := s[i - 1]][i - 1 := s[i]] == s[..i - 1] + [s[i], s[i - 1]] + s[i + 1..]
  {
  }

  lemma TimesAround<T>(a: seq<T>, y: T, z: T, b: seq<T>, x: T)
    ensures Times(a + [y, z] + b, x) == Times(a, x) + (if y == x then 1 else 0) + (if z == x then 1
      else 0) + Times(b, x)
  {
    TimesConcat(a + [y, z], b, x);
    TimesConcat(a, [y, z], x);
    assert [y, z][1..] == [z] && [z][1..] == [];
  }

  lemma {:induction false} BubbleIds(ts: seq<Timer>, i: nat, id: TaskId)
    requires i < |ts|
    ensures Times(Ids(Bubble(ts, i)), id) == Times(Ids(ts), id)
    decreases i
  {
    if i > 0 {
      if ts[i].at > ts[i - 1].at {
        var swapped := ts[i := ts[i - 1]][i - 1 := ts[i]];
        TimesSwap(Ids(ts), i, id);
        assert Ids(swapped) == Ids(ts)[i := Ids(ts)[i - 1]][i - 1 := Ids(ts)[i]];
        BubbleIds(swapped, i - 1, id);
      } else {
        BubbleIds(ts, i - 1, id);
      }
    }
  }

  lemma DelayedIds(ts: seq<Timer>, task: TaskId, at: Time, id: TaskId)
    ensures Times(Ids(Delayed(ts, task, at)), id) == Times(Ids(ts), id)
  {
    var i := Find(ts, task);
    if i < |ts| {
      assert Ids(ts[i := Timer(at, task)]) == Ids(ts);
      BubbleIds(ts[i := Timer(at, task)], i, id);
    }
  }

  /** The vector while delay() carries entry `i` of `ts` forward: it has reached position `p` as `t`. */
  ghost function Carried(ts: seq<Timer>, i: nat, p: nat, t: Timer): seq<Timer>
    requires p <= i < |ts|
  {
    ts[..p] + [t] + ts[p..i] + ts[i + 1..]
  }

  lemma {:induction false} BubbleCarries(ts: seq<Timer>, i: nat, p: nat, it: nat, t: Timer)
    requires Sorted(ts) && it <= p <= i < |ts|
    requires forall k :: p <= k < i ==> ts[k].at < t.at
    requires it < p ==> ts[p - 1].at >= t.at
    ensures Bubble(Carried(ts, i, p, t), it) == Insert(ts[..i], t) + ts[i + 1..]
    decreases it
  {
    var c := Carried(ts, i, p, t);
    if it == 0 {
      SlotIs(ts[..i], t.at, p);
      assert ts[..i][..p] == ts[..p] && ts[..i][p..] == ts[p..i];
    } else if it == p && ts[p - 1].at < t.at {
      assert c[it := c[it - 1]][it - 1 := c[it]] == Carried(ts, i, p - 1, t);
      BubbleCarries(ts, i, p - 1, it - 1, t);
    } else {
      assert c[it - 1] == ts[it - 1] && c[it].at <= c[it - 1].at;
      BubbleCarries(ts, i, p, it - 1, t);
    }
  }

  /** The pass of swaps puts the entry where its new time belongs among the entries in front of it. */
  lemma DelayedIsRescheduled(ts: seq<Timer>, id: TaskId, at: Time)
    requires Sorted(ts) && Find(ts, id) < |ts|
    ensures Delayed(ts, id, at) == Reschedule(ts, Find(ts, id), at)
  {
    var i := Find(ts, id);
    assert ts[i := Timer(at, id)] == Carried(ts, i, i, Timer(at, id));
    BubbleCarries(ts, i, i, i, Timer(at, id));
  }

  lemma SlotIs(ts: seq<Timer>, at: Time, p: nat)
    requires p <= |ts| && (forall i :: 0 <= i < p ==> ts[i].at >= at) && (p < |ts| ==> ts[p].at < at)
    ensures Slot(ts, at) == p
  {
  }

  lemma FindIs(ts: seq<Timer>, id: TaskId, i: nat)
    requires i <= |ts| && (forall j :: 0 <= j < i ==> ts[j].id != id) && (i < |ts| ==> ts[i].id == id)
    ensures Find(ts, id) == i
  {
  }

  lemma SortedConcat(a: seq<Timer>, b: seq<Timer>)
    requires a != [] && b != []
    ensures Sorted(a + b) <==> Sorted(a) && Sorted(b) && a[|a| - 1].at >= b[0].at
  {
    var c := a + b;
    assert forall k :: 0 <= k < |a| ==> a[k] == c[k];
    assert forall k :: 0 <= k < |b| ==> b[k] == c[|a| + k];
    if Sorted(a) && Sorted(b) && a[|a| - 1].at >= b[0].at {
      forall i, j | 0 <= i < j < |c|
        ensures c[i].at >= c[j].at
      {
        assert i < |a| ==> a[i].at >= a[|a| - 1].at;
        assert j >= |a| ==> b[0].at >= b[j - |a|].at;
      }
    }
  }

  /**
   * delay() keeps the vector in order exactly when the new time is no earlier than that of the entry firing just
   * before.
   */
  lemma RescheduleSorted(ts: seq<Timer>, i: nat, at: Time)
    requires Sorted(ts) && i < |ts|
    ensures Sorted(Reschedule(ts, i, at)) <==> (i + 1 < |ts| ==> ts[i + 1].at <= at)
  {
    var t := Timer(at, ts[i].id);
    var head, tail := Insert(ts[..i], t), ts[i + 1..];
    InsertSplits(ts[..i], t);
    InsertLast(ts[..i], t);
    if tail == [] {
      assert head + tail == head;
    } else {
      SortedConcat(head, tail);
      SortedTail(ts, i + 1);
    }
  }

  lemma InsertLast(ts: seq<Timer>, t: Timer)
    ensures var r := Insert(ts, t);
      |r| == |ts| + 1 && r[|ts|] == (if Slot(ts, t.at) == |ts| then t else ts[|ts| - 1])
  {
  }

  lemma SortedTail(ts: seq<Timer>, i: nat)
    requires Sorted(ts) && i <= |ts|
    ensures Sorted(ts[i..])
  {
    assert forall k :: 0 <= k < |ts[i..]| ==> ts[i..][k] == ts[i + k];
  }

  /** Moving a timer to an earlier time can leave it where pop() does not look. */
  lemma DelayToEarlierCanUnsort()
    ensures var ts := [Timer(10, 0), Timer(5, 1)];
      Sorted(ts) && !Sorted(Delayed(ts, 0, 1))
      && TakeNext(Queues([], Delayed(ts, 0, 1)), 1).1 == None
  {
    var ts := [Timer(10, 0), Timer(5, 1)];
    assert Find(ts, 0) == 0;
    assert ts[..0] == [] && ts[1..] == [Timer(5, 1)];
    assert Insert([], Timer(1, 0)) == [Timer(1, 0)];
    assert Delayed(ts, 0, 1) == [Timer(1, 0), Timer(5, 1)];
    assert Delayed(ts, 0, 1)[0].at < Delayed(ts, 0, 1)[1].at;
  }

  // ----- popping -----

  lemma TakeNextPending(q: Queues, now: Time, id: TaskId)
    ensures var (q', task) := TakeNext(q, now);
      && Pending(q, id) == Pending(q', id) + (if task == Some(id) then 1 else 0)
      && (task.None? ==> q' == q)
  {
    if q.tasks == [] && q.timers != [] {
      RemoveIds(q.timers, |q.timers| - 1, id);
      assert Remove(q.timers, |q.timers| - 1) == q.timers[..|q.timers| - 1];
    }
  }

  /**
   * pop() takes the oldest immediate task, else a due timer of minimal time, else nothing; it succeeds exactly when
   * ready().
   */
  lemma PopPicks(q: Queues, now: Time)
    requires Sorted(q.timers)
    ensures TakeNext(q, now).1.Some? <==> Ready(q, now)
    ensures Ready(q, now) <==> q.tasks != [] || exists t :: t in q.timers && t.at <= now
    ensures q.tasks != [] ==> TakeNext(q, now).1 == Some(q.tasks[0])
    ensures q.tasks == [] && TakeNext(q, now).1.Some? ==>
      exists t :: t in q.timers && t.id == TakeNext(q, now).1.value && t.at <= now
        && (forall u :: u in q.timers ==> t.at <= u.at)
    ensures Sorted(TakeNext(q, now).0.timers)
  {
    if q.timers != [] {
      assert q.timers[|q.timers| - 1] in q.timers;
    }
  }

  lemma NextIsEarliest(q: Queues)
    requires Sorted(q.timers)
    ensures Next(q).None? <==> q.timers == []
    ensures Next(q).Some? ==> (exists t :: t in q.timers && t.at == Next(q).value) && forall t :: t in q.timers ==>
      Next(q).value <= t.at
  {
    if q.timers != [] {
      assert q.timers[|q.timers| - 1] in q.timers;
    }
  }

  lemma RemoveKeepsOrder(ts: seq<Timer>, i: nat)
    requires i < |ts|
    ensures Sorted(ts) ==> Sorted(Remove(ts, i))
  {
    var r := Remove(ts, i);
    assert forall k :: 0 <= k < |r| ==> r[k] == ts[if k < i then k else k + 1];
  }

  // ----- whole runs -----

  /** One critical section of the task mutex; `now` is the clock reading taken inside it. */
  datatype Op = Push | PushDelayed(at: Time) | Delay(id: TaskId, at: Time) | Cancel(id: TaskId) | Pop(now: Time)

  /** The queues together with what has become of every task; a task is named by the number of pushes before it. */
  datatype Ledger = Ledger(q: Queues, issued: TaskId, popped: seq<TaskId>, cancelled: seq<TaskId>)

  function Apply(l: Ledger, op: Op): Ledger {
    match op
    case Push => l.(q := l.q.(tasks := l.q.tasks + [l.issued]), issued := l.issued + 1)
    case PushDelayed(at) => l.(q := l.q.(timers := Insert(l.q.timers, Timer(at, l.issued))), issued := l.issued + 1)
    case Delay(id, at) => l.(q := l.q.(timers := Delayed(l.q.timers, id, at)))
    case Cancel(id) =>
      if Find(l.q.timers, id) < |l.q.timers| then
        l.(q := l.q.(timers := Cancelled(l.q.timers, id)), cancelled := l.cancelled + [id])
      else l
    case Pop(now) =>
      var (q, task) := TakeNext(l.q, now);
      if task.Some? then l.(q := q, popped := l.popped + [task.value]) else l
  }

  function Run(ops: seq<Op>): Ledger {
    if ops == [] then Ledger(Queues([], []), 0, [], [])
    else Apply(Run(ops[..|ops| - 1]), ops[|ops| - 1])
  }

  /** All the places a task can be: waiting, popped, cancelled. */
  function Traces(l: Ledger, id: TaskId): nat {
    Pending(l.q, id) + Times(l.popped, id) + Times(l.cancelled, id)
  }

  lemma TracesStep(l: Ledger, op: Op, id: TaskId)
    ensures Traces(Apply(l, op), id) == Traces(l, id) + if (op.Push? || op.PushDelayed?) && id == l.issued then 1 else 0
  {
    match op {
      case Push => TimesConcat(l.q.tasks, [l.issued], id);
      case PushDelayed(at) => InsertIds(l.q.timers, Timer(at, l.issued), id);
      case Delay(task, at) => DelayedIds(l.q.timers, task, at, id);
      case Cancel(task) =>
        if Find(l.q.timers, task) < |l.q.timers| {
          RemoveIds(l.q.timers, Find(l.q.timers, task), id);
          TimesConcat(l.cancelled, [task], id);
        }
      case Pop(now) =>
        TakeNextPending(l.q, now, id);
        var task := TakeNext(l.q, now).1;
        if task.Some? {
          TimesConcat(l.popped, [task.value], id);
        }
    }
  }

  /** In every run, each task pushed is exactly one of pending, popped once, or cancelled once. */
  lemma {:induction false} EveryTaskOnce(ops: seq<Op>, id: TaskId)
    ensures Traces(Run(ops), id) == if id < Run(ops).issued then 1 else 0
  {
    if ops != [] {
      EveryTaskOnce(ops[..|ops| - 1], id);
      TracesStep(Run(ops[..|ops| - 1]), ops[|ops| - 1], id);
    }
  }

  /** delay() postpones, or at least does not overtake the entry that fires just before. */
  predicate OrderlyDelay(l: Ledger, op: Op) {
    op.Delay? ==>
      var i := Find(l.q.timers, op.id);
      i + 1 < |l.q.timers| ==> l.q.timers[i + 1].at <= op.at
  }

  lemma SortedStep(l: Ledger, op: Op)
    requires Sorted(l.q.timers)
    ensures Sorted(Apply(l, op).q.timers) <==> OrderlyDelay(l, op)
  {
    match op {
      case Push =>
      case PushDelayed(at) => InsertSplits(l.q.timers, Timer(at, l.issued));
      case Delay(id, at) =>
        var i := Find(l.q.timers, id);
        if i < |l.q.timers| {
          DelayedIsRescheduled(l.q.timers, id, at);
          RescheduleSorted(l.q.timers, i, at);
        }
      case Cancel(id) =>
        var i := Find(l.q.timers, id);
        if i < |l.q.timers| {
          RemoveKeepsOrder(l.q.timers, i);
        }
      case Pop(now) => PopPicks(l.q, now);
    }
  }

  /** The timers are in order after every run without an overtaking delay(). */
  lemma {:induction false} AlwaysSorted(ops: seq<Op>)
    requires forall k :: 0 <= k < |ops| ==> OrderlyDelay(Run(ops[..k]), ops[k])
    ensures Sorted(Run(ops).q.timers)
  {
    if ops != [] {
      var before := ops[..|ops| - 1];
      assert forall k :: 0 <= k < |before| ==> before[..k] == ops[..k];
      AlwaysSorted(before);
      SortedStep(Run(before), ops[|ops| - 1]);
    }
  }

  // ----- the code -----

  /** The pool itself: each method is one critical section of the task mutex. */
  class Pool {
    var tasks: seq<TaskId>
    var timers: seq<Timer>

    ghost function State(): Queues
      reads this
    {
      Queues(tasks, timers)
    }

    constructor ()
      ensures State() == Queues([], [])
    {
      tasks, timers := [], [];
    }

    method Push(task: TaskId)
      modifies this
      ensures State() == Queues(old(tasks) + [task], old(timers))
    {
      tasks := tasks + [task];
    }

    method PushDelayed(at: Time, task: TaskId)
      modifies this
      ensures State() == Queues(old(tasks), Insert(old(timers), Timer(at, task)))
    {
      var it := 0;
      while it < |timers|
        invariant 0 <= it <= |timers|
        invariant forall j :: 0 <= j < it ==> timers[j].at >= at
      {
        if timers[it].at < at {
          break;
        }
        it := it + 1;
      }
      SlotIs(timers, at, it);
      timers := timers[..it] + [Timer(at, task)] + timers[it..];
    }

    method Delay(id: TaskId, at: Time)
      modifies this
      ensures State() == Queues(old(tasks), Delayed(old(timers), id, at))
    {
      var it := 0;
      while it < |timers|
        invariant 0 <= it <= |timers|
        invariant forall j :: 0 <= j < it ==> timers[j].id != id
      {
        if timers[it].id == id {
          break;
        }
        it := it + 1;
      }
      FindIs(timers, id, it);
      if it == |timers| {
        return;
      }
      timers := timers[it := Timer(at, id)];
      // carry the entry forward while the one in front fires earlier
      var prev := it - 1;
      while it > 0
        invariant 0 <= it < |timers| && prev == it - 1
        invariant Bubble(timers, it) == Delayed(old(timers), id, at) && tasks == old(tasks)
      {
        if timers[it].at > timers[prev].at {
          timers := timers[it := timers[prev]][prev := timers[it]];
        }
        prev, it := prev - 1, it - 1;
      }
    }

    method Cancel(id: TaskId) returns (found: bool)
      modifies this
      ensures State() == Queues(old(tasks), Cancelled(old(timers), id))
      ensures found <==> Find(old(timers), id) < |old(timers)|
    {
      var it := 0;
      while it < |timers|
        invariant 0 <= it <= |timers| && timers == old(timers) && tasks == old(tasks)
        invariant forall j :: 0 <= j < it ==> timers[j].id != id
      {
        if timers[it].id == id {
          FindIs(timers, id, it);
          timers := timers[..it] + timers[it + 1..];
          return true;
        }
        it := it + 1;
      }
      FindIs(timers, id, it);
      return false;
    }

    method Pop(now: Time) returns (task: Option<TaskId>)
      modifies this
      ensures (State(), task) == TakeNext(old(State()), now)
    {
      if tasks != [] {
        task := Some(tasks[0]);
        tasks := tasks[1..];
        return;
      }
      if timers != [] && timers[|timers| - 1].at <= now {
        task := Some(timers[|timers| - 1].id);
        timers := timers[..|timers| - 1];
        return;
      }
      return None;
    }
  }
}
