/**
 * Which of several timers of src/task_pool.h that are due at the same time fires first. Every timer carries a stamp,
 * the number of the operation that put it where it is, or of its push.
 */
module TaskTies {
  import opened Basics
  import opened TaskPool

  type Stamps = map<TaskId, nat>

  predicate Stamped(ts: seq<Timer>, st: Stamps) {
    forall i :: 0 <= i < |ts| ==> ts[i].id in st
  }

  /** Among equal times, the timer with the later stamp is nearer the end, where pop() looks. */
  predicate LatestFirst(ts: seq<Timer>, st: Stamps)
    requires Stamped(ts, st)
  {
    forall i, j :: 0 <= i < j < |ts| && ts[i].at == ts[j].at ==> st[ts[i].id] < st[ts[j].id]
  }

  predicate Ordered(ts: seq<Timer>, st: Stamps) {
    Sorted(ts) && Stamped(ts, st) && LatestFirst(ts, st)
  }

  /** pop() takes timer `k`, which is due, the earliest, and among the earliest the one with the latest stamp. */
  ghost predicate IsLatestDue(q: Queues, now: Time, st: Stamps, k: nat)
    requires Stamped(q.timers, st)
  {
    && k < |q.timers| && TakeNext(q, now).1 == Some(q.timers[k].id) && q.timers[k].at <= now
    && forall j :: 0 <= j < |q.timers| && j != k ==>
         q.timers[k].at < q.timers[j].at
           || (q.timers[k].at == q.timers[j].at && st[q.timers[j].id] < st[q.timers[k].id])
  }

  lemma PopTakesLatest(q: Queues, now: Time, st: Stamps) returns (k: nat)
    requires Ordered(q.timers, st) && q.tasks == [] && Ready(q, now)
    ensures IsLatestDue(q, now, st, k)
  {
    k := |q.timers| - 1;
  }

  // ----- sequences of timers put together -----

  /** No timer of `a` has the time of one of `b` and a later stamp. */
  predicate InFrontOf(a: seq<Timer>, b: seq<Timer>, st: Stamps)
    requires Stamped(a, st) && Stamped(b, st)
  {
    forall i, j :: 0 <= i < |a| && 0 <= j < |b| && a[i].at == b[j].at ==> st[a[i].id] < st[b[j].id]
  }

  lemma StampedConcat(a: seq<Timer>, b: seq<Timer>, st: Stamps)
    ensures Stamped(a + b, st) <==> Stamped(a, st) && Stamped(b, st)
  {
    var c := a + b;
    assert forall k :: 0 <= k < |a| ==> a[k] == c[k];
    assert forall k :: 0 <= k < |b| ==> b[k] == c[|a| + k];
  }

  lemma LatestConcat(a: seq<Timer>, b: seq<Timer>, st: Stamps)
    requires Stamped(a, st) && Stamped(b, st)
    ensures Stamped(a + b, st)
    ensures LatestFirst(a + b, st) <==> LatestFirst(a, st) && LatestFirst(b, st) && InFrontOf(a, b, st)
  {
    StampedConcat(a, b, st);
    var c := a + b;
    assert forall k :: 0 <= k < |a| ==> a[k] == c[k];
    assert forall k :: 0 <= k < |b| ==> b[k] == c[|a| + k];
    if LatestFirst(a, st) && LatestFirst(b, st) && InFrontOf(a, b, st) {
      forall i, j | 0 <= i < j < |c| && c[i].at == c[j].at
        ensures st[c[i].id] < st[c[j].id]
      {
        if i >= |a| {
          assert c[i] == b[i - |a|] && c[j] == b[j - |a|];
        } else if j >= |a| {
          assert c[j] == b[j - |a|];
        }
      }
    }
  }

  /** No timer of `ts` at the time of `t` has a later stamp than `t`. */
  predicate NewestAt(ts: seq<Timer>, t: Timer, st: Stamps)
    requires Stamped(ts, st) && t.id in st
  {
    forall k :: 0 <= k < |ts| && ts[k].at == t.at ==> st[ts[k].id] < st[t.id]
  }

  lemma PutBetween(a: seq<Timer>, t: Timer, b: seq<Timer>, st: Stamps)
    requires Stamped(a, st) && Stamped(b, st) && t.id in st && LatestFirst(a, st) && LatestFirst(b, st)
    requires InFrontOf(a, b, st)
    requires InFrontOf([t], b, st)
    ensures Stamped(a + [t] + b, st)
    ensures LatestFirst(a + [t] + b, st) <==> InFrontOf(a, [t], st)
  {
    LatestConcat(a, [t], st);
    LatestConcat(a + [t], b, st);
    InFrontConcat(a, [t], b, st);
  }

  lemma EarlierBehind(t: Timer, b: seq<Timer>, st: Stamps)
    requires Stamped(b, st) && t.id in st && forall k :: 0 <= k < |b| ==> b[k].at < t.at
    ensures InFrontOf([t], b, st)
  {
  }

  /** Inserting keeps the ties in order exactly when the new timer is the newest at its time. */
  lemma InsertLatest(ts: seq<Timer>, t: Timer, st: Stamps)
    requires Ordered(ts, st) && t.id in st
    ensures Stamped(Insert(ts, t), st)
    ensures LatestFirst(Insert(ts, t), st) <==> NewestAt(ts, t, st)
  {
    var p := Slot(ts, t.at);
    var a, b := ts[..p], ts[p..];
    BehindSlot(ts, t.at);
    SplitOrdered(ts, p, st);
    EarlierBehind(t, b, st);
    PutBetween(a, t, b, st);
    NewestInFront(ts, p, t, st);
  }

  lemma BehindSlot(ts: seq<Timer>, at: Time)
    requires Sorted(ts)
    ensures forall k :: Slot(ts, at) <= k < |ts| ==> ts[k].at < at
    ensures forall k :: 0 <= k < |ts[Slot(ts, at)..]| ==> ts[Slot(ts, at)..][k].at < at
  {
    var p := Slot(ts, at);
    forall k | p <= k < |ts|
      ensures ts[k].at < at
    {
      assert ts[p].at < at;
    }
  }

  lemma SplitOrdered(ts: seq<Timer>, p: nat, st: Stamps)
    requires Ordered(ts, st) && p <= |ts|
    ensures Stamped(ts[..p], st) && Stamped(ts[p..], st)
    ensures LatestFirst(ts[..p], st) && LatestFirst(ts[p..], st) && InFrontOf(ts[..p], ts[p..], st)
  {
    assert ts == ts[..p] + ts[p..];
    StampedConcat(ts[..p], ts[p..], st);
    LatestConcat(ts[..p], ts[p..], st);
  }

  /** Only the timers in front of the slot of `t` can have its time. */
  lemma NewestInFront(ts: seq<Timer>, p: nat, t: Timer, st: Stamps)
    requires Stamped(ts, st) && t.id in st && p <= |ts| && forall k :: p <= k < |ts| ==> ts[k].at < t.at
    ensures Stamped(ts[..p], st) && (NewestAt(ts, t, st) <==> InFrontOf(ts[..p], [t], st))
  {
    assert forall k :: 0 <= k < p ==> ts[..p][k] == ts[k];
    if InFrontOf(ts[..p], [t], st) {
      forall k | 0 <= k < |ts| && ts[k].at == t.at
        ensures st[ts[k].id] < st[t.id]
      {
        assert ts[..p][k].at == [t][0].at;
      }
    }
  }

  lemma InFrontConcat(a: seq<Timer>, b: seq<Timer>, c: seq<Timer>, st: Stamps)
    requires Stamped(a, st) && Stamped(b, st) && Stamped(c, st)
    ensures Stamped(a + b, st)
    ensures InFrontOf(a + b, c, st) <==> InFrontOf(a, c, st) && InFrontOf(b, c, st)
  {
    var ab := a + b;
    StampedConcat(a, b, st);
    assert forall k :: 0 <= k < |a| ==> a[k] == ab[k];
    assert forall k :: 0 <= k < |b| ==> b[k] == ab[|a| + k];
    if InFrontOf(a, c, st) && InFrontOf(b, c, st) {
      forall i, j | 0 <= i < |ab| && 0 <= j < |c| && ab[i].at == c[j].at
        ensures st[ab[i].id] < st[c[j].id]
      {
        if i >= |a| {
          assert ab[i] == b[i - |a|];
        }
      }
    }
  }

  lemma RemoveKeepsLatest(ts: seq<Timer>, i: nat, st: Stamps)
    requires i < |ts| && Ordered(ts, st)
    ensures Ordered(Remove(ts, i), st)
  {
    var r := Remove(ts, i);
    assert forall k :: 0 <= k < |r| ==> r[k] == ts[if k < i then k else k + 1];
  }

  // ----- delay() -----

  /** `st'` differs from `st` at most in the stamp of entry `i`. */
  predicate Restamped(ts: seq<Timer>, i: nat, st: Stamps, st': Stamps)
    requires i < |ts| && Stamped(ts, st)
  {
    Stamped(ts, st') && forall k :: 0 <= k < |ts| && k != i ==> st'[ts[k].id] == st[ts[k].id]
  }

  lemma FrontOrdered(ts: seq<Timer>, i: nat, st: Stamps, st': Stamps)
    requires Ordered(ts, st) && i < |ts| && Restamped(ts, i, st, st')
    ensures Ordered(ts[..i], st')
  {
    assert forall k :: 0 <= k < i ==> ts[..i][k] == ts[k];
  }

  lemma TailOrdered(ts: seq<Timer>, i: nat, st: Stamps, st': Stamps)
    requires Ordered(ts, st) && i < |ts| && Restamped(ts, i, st, st')
    ensures Ordered(ts[i + 1..], st')
  {
    var b := ts[i + 1..];
    assert forall k :: 0 <= k < |b| ==> b[k] == ts[i + 1 + k];
  }

  lemma AroundOrdered(ts: seq<Timer>, i: nat, st: Stamps, st': Stamps)
    requires Ordered(ts, st) && i < |ts| && Restamped(ts, i, st, st')
    ensures Stamped(ts[..i], st') && Stamped(ts[i + 1..], st') && InFrontOf(ts[..i], ts[i + 1..], st')
  {
    var a, b := ts[..i], ts[i + 1..];
    forall k | 0 <= k < |a|
      ensures a[k].id in st' && st'[a[k].id] == st[a[k].id] && a[k] == ts[k]
    {
    }
    forall k | 0 <= k < |b|
      ensures b[k].id in st' && st'[b[k].id] == st[b[k].id] && b[k] == ts[i + 1 + k]
    {
    }
  }

  lemma InsertInFront(a: seq<Timer>, t: Timer, b: seq<Timer>, st: Stamps)
    requires Stamped(a, st) && Stamped(b, st) && t.id in st && InFrontOf(a, b, st)
    ensures Stamped(Insert(a, t), st)
    ensures InFrontOf(Insert(a, t), b, st) <==> InFrontOf([t], b, st)
  {
    var p := Slot(a, t.at);
    var x, y := a[..p], a[p..];
    assert a == x + y;
    StampedConcat(x, y, st);
    InFrontConcat(x, y, b, st);
    InFrontConcat(x, [t], b, st);
    InFrontConcat(x + [t], y, b, st);
  }

  /**
   * A delay that keeps the vector sorted keeps the ties in order exactly when the moved timer is the newest at its new
   * time among those in front of it, and older than those behind it.
   */
  lemma RescheduleLatest(ts: seq<Timer>, i: nat, at: Time, st: Stamps, st': Stamps)
    requires Ordered(ts, st) && i < |ts| && Restamped(ts, i, st, st')
    ensures var t := Timer(at, ts[i].id);
      && Stamped(ts[..i], st') && Stamped(ts[i + 1..], st') && Stamped(Reschedule(ts, i, at), st')
      && (LatestFirst(Reschedule(ts, i, at), st') <==> NewestAt(ts[..i], t, st') && InFrontOf([t], ts[i + 1..], st'))
  {
    var t, a, b := Timer(at, ts[i].id), ts[..i], ts[i + 1..];
    FrontOrdered(ts, i, st, st');
    TailOrdered(ts, i, st, st');
    AroundOrdered(ts, i, st, st');
    InsertLatest(a, t, st');
    InsertInFront(a, t, b, st');
    LatestConcat(Insert(a, t), b, st');
  }

  // ----- stamps of placing: the last push or delay -----

  /** The operation that last pushed or delayed each timer. */
  function Placed(ops: seq<Op>): Stamps {
    if ops == [] then map[]
    else Restamp(Run(ops[..|ops| - 1]), ops[|ops| - 1], Placed(ops[..|ops| - 1]), |ops|)
  }

  function Restamp(l: Ledger, op: Op, st: Stamps, now: nat): Stamps {
    match op
    case PushDelayed(_) => st[l.issued := now]
    case Delay(id, _) => if Find(l.q.timers, id) < |l.q.timers| then st[id := now] else st
    case _ => st
  }

  /** The moved timer would not fire before every timer behind it. */
  predicate Overtakes(l: Ledger, op: Op) {
    op.Delay? &&
    var i := Find(l.q.timers, op.id);
    i + 1 < |l.q.timers| && op.at <= l.q.timers[i + 1].at
  }

  predicate DistinctIds(ts: seq<Timer>) {
    forall i, j :: 0 <= i < j < |ts| ==> ts[i].id != ts[j].id
  }

  /** Different timers, all pushed already. */
  predicate Issued(l: Ledger) {
    DistinctIds(l.q.timers) && forall i :: 0 <= i < |l.q.timers| ==> l.q.timers[i].id < l.issued
  }

  predicate StampedBefore(ts: seq<Timer>, st: Stamps, now: nat)
    requires Stamped(ts, st)
  {
    forall i :: 0 <= i < |ts| ==> st[ts[i].id] < now
  }

  lemma PushPlaces(l: Ledger, at: Time, st: Stamps, now: nat)
    requires Issued(l) && Ordered(l.q.timers, st) && StampedBefore(l.q.timers, st, now)
    ensures Ordered(Insert(l.q.timers, Timer(at, l.issued)), st[l.issued := now])
  {
    var t, st' := Timer(at, l.issued), st[l.issued := now];
    InsertSplits(l.q.timers, t);
    InsertLatest(l.q.timers, t, st');
  }

  lemma DelayRestamps(ts: seq<Timer>, id: TaskId, st: Stamps, now: nat)
    requires DistinctIds(ts) && Stamped(ts, st) && Find(ts, id) < |ts|
    ensures Restamped(ts, Find(ts, id), st, st[id := now])
  {
  }

  /** In front of entry `i`, in terms of the whole vector. */
  lemma NewerThanFront(ts: seq<Timer>, i: nat, t: Timer, st: Stamps)
    requires i < |ts| && Stamped(ts[..i], st) && t.id in st
    ensures NewestAt(ts[..i], t, st) <==>
      forall k :: 0 <= k < i && ts[k].at == t.at ==> ts[k].id in st && st[ts[k].id] < st[t.id]
  {
    assert forall k :: 0 <= k < i ==> ts[..i][k] == ts[k];
  }

  /** Behind entry `i`, in terms of the whole vector. */
  lemma OlderThanTail(ts: seq<Timer>, i: nat, t: Timer, st: Stamps)
    requires i < |ts| && Stamped(ts[i + 1..], st) && t.id in st
    ensures InFrontOf([t], ts[i + 1..], st) <==>
      forall k :: i < k < |ts| && ts[k].at == t.at ==> ts[k].id in st && st[t.id] < st[ts[k].id]
  {
    var b := ts[i + 1..];
    assert forall k :: 0 <= k < |b| ==> b[k] == ts[i + 1 + k];
    if InFrontOf([t], b, st) {
      forall k | i < k < |ts| && ts[k].at == t.at
        ensures ts[k].id in st && st[t.id] < st[ts[k].id]
      {
        assert [t][0].at == b[k - (i + 1)].at;
      }
    }
  }

  /** With the newest stamp, the timer is in order exactly if none behind it has its time. */
  lemma NewestTail(ts: seq<Timer>, i: nat, t: Timer, st: Stamps)
    requires Sorted(ts) && Stamped(ts, st) && i < |ts| && t.id in st && (i + 1 < |ts| ==> ts[i + 1].at <= t.at)
    requires forall k :: 0 <= k < |ts| && k != i ==> st[ts[k].id] < st[t.id]
    ensures Stamped(ts[..i], st) && NewestAt(ts[..i], t, st)
    ensures Stamped(ts[i + 1..], st)
    ensures InFrontOf([t], ts[i + 1..], st) <==> (i + 1 < |ts| ==> ts[i + 1].at < t.at)
  {
    StampedConcat(ts[..i], ts[i..], st);
    StampedConcat(ts[..i + 1], ts[i + 1..], st);
    assert ts == ts[..i] + ts[i..] && ts == ts[..i + 1] + ts[i + 1..];
    NewerThanFront(ts, i, t, st);
    OlderThanTail(ts, i, t, st);
  }

  lemma DelayPlaces(ts: seq<Timer>, id: TaskId, at: Time, st: Stamps, now: nat)
    requires DistinctIds(ts) && Ordered(ts, st) && StampedBefore(ts, st, now) && Find(ts, id) < |ts|
    ensures Ordered(Delayed(ts, id, at), st[id := now]) <==> (Find(ts, id) + 1 < |ts| ==> ts[Find(ts, id) + 1].at < at)
  {
    var i, st' := Find(ts, id), st[id := now];
    DelayedIsRescheduled(ts, id, at);
    RescheduleSorted(ts, i, at);
    DelayRestamps(ts, id, st, now);
    RescheduleLatest(ts, i, at, st, st');
    if i + 1 < |ts| ==> ts[i + 1].at <= at {
      NewestTail(ts, i, Timer(at, id), st');
    }
  }

  /** One operation keeps the latest placed first exactly when it is no overtaking delay. */
  lemma PlacedStep(l: Ledger, op: Op, st: Stamps, now: nat)
    requires Issued(l) && Ordered(l.q.timers, st) && StampedBefore(l.q.timers, st, now)
    ensures Ordered(Apply(l, op).q.timers, Restamp(l, op, st, now)) <==> !Overtakes(l, op)
  {
    match op {
      case Push =>
      case PushDelayed(at) => PushPlaces(l, at, st, now);
      case Delay(id, at) =>
        if Find(l.q.timers, id) < |l.q.timers| {
          DelayPlaces(l.q.timers, id, at, st, now);
        }
      case Cancel(id) =>
        if Find(l.q.timers, id) < |l.q.timers| {
          RemoveKeepsLatest(l.q.timers, Find(l.q.timers, id), st);
        }
      case Pop(now') => PopKeepsLatest(l.q, now', st);
    }
  }

  lemma PopKeepsLatest(q: Queues, now: Time, st: Stamps)
    requires Ordered(q.timers, st)
    ensures Ordered(TakeNext(q, now).0.timers, st)
  {
    if q.timers != [] {
      RemoveKeepsLatest(q.timers, |q.timers| - 1, st);
      assert Remove(q.timers, |q.timers| - 1) == q.timers[..|q.timers| - 1];
    }
  }

  lemma TwiceCounts(s: seq<TaskId>, i: nat, j: nat)
    requires i < j < |s| && s[i] == s[j]
    ensures Times(s, s[j]) >= 2
  {
    TimesSplit(s, j, s[j]);
    assert s[..j][i] == s[j];
  }

  /** In every run the waiting timers are different and were pushed. */
  lemma RunIssued(ops: seq<Op>)
    ensures Issued(Run(ops))
  {
    var l := Run(ops);
    var ids := Ids(l.q.timers);
    forall i | 0 <= i < |l.q.timers|
      ensures l.q.timers[i].id < l.issued
    {
      assert ids[i] in ids;
      EveryTaskOnce(ops, ids[i]);
    }
    forall i, j | 0 <= i < j < |l.q.timers|
      ensures l.q.timers[i].id != l.q.timers[j].id
    {
      EveryTaskOnce(ops, ids[j]);
      if ids[i] == ids[j] {
        TwiceCounts(ids, i, j);
      }
    }
  }

  /** After every run without an overtaking delay, ties fire latest placed first. */
  lemma {:induction false} AlwaysLatestPlaced(ops: seq<Op>)
    requires forall k :: 0 <= k < |ops| ==> !Overtakes(Run(ops[..k]), ops[k])
    ensures Ordered(Run(ops).q.timers, Placed(ops)) && StampedBefore(Run(ops).q.timers, Placed(ops), |ops| + 1)
  {
    if ops != [] {
      var before, op := ops[..|ops| - 1], ops[|ops| - 1];
      assert forall k :: 0 <= k < |before| ==> before[..k] == ops[..k];
      AlwaysLatestPlaced(before);
      RunIssued(before);
      PlacedStep(Run(before), op, Placed(before), |ops|);
      StampsGrow(ops);
    }
  }

  /** No stamp is larger than the number of operations. */
  lemma {:induction false} StampsGrow(ops: seq<Op>)
    ensures forall id :: id in Placed(ops) ==> Placed(ops)[id] <= |ops|
  {
    if ops != [] {
      StampsGrow(ops[..|ops| - 1]);
    }
  }

  /** A delay to a later time than the timer had. */
  predicate Postpones(l: Ledger, op: Op) {
    op.Delay? ==>
      var i := Find(l.q.timers, op.id);
      i < |l.q.timers| ==> l.q.timers[i].at < op.at
  }

  lemma PostponesNotOvertakes(l: Ledger, op: Op)
    requires Sorted(l.q.timers) && Postpones(l, op)
    ensures !Overtakes(l, op)
  {
  }

  /** After every run whose delays all postpone, ties fire latest placed first. */
  lemma {:induction false} PostponingStaysOrdered(ops: seq<Op>)
    requires forall k :: 0 <= k < |ops| ==> Postpones(Run(ops[..k]), ops[k])
    ensures Ordered(Run(ops).q.timers, Placed(ops))
  {
    if ops != [] {
      var before, op := ops[..|ops| - 1], ops[|ops| - 1];
      assert forall k :: 0 <= k < |before| ==> before[..k] == ops[..k];
      PostponingStaysOrdered(before);
      RunIssued(before);
      StampsGrow(before);
      PostponesNotOvertakes(Run(before), op);
      PlacedStep(Run(before), op, Placed(before), |ops|);
    }
  }

  /** In such a run pop() takes, of the due timers with the earliest time, the one that was pushed or delayed last. */
  lemma PostponingPopsLatestPlaced(ops: seq<Op>, now: Time) returns (k: nat)
    requires forall k :: 0 <= k < |ops| ==> Postpones(Run(ops[..k]), ops[k])
    requires Run(ops).q.tasks == [] && Ready(Run(ops).q, now)
    ensures Stamped(Run(ops).q.timers, Placed(ops)) && IsLatestDue(Run(ops).q, now, Placed(ops), k)
  {
    PostponingStaysOrdered(ops);
    k := PopTakesLatest(Run(ops).q, now, Placed(ops));
  }

  // ----- stamps of pushing -----

  /** Ids grow with every push. */
  function PushOrder(issued: TaskId): (st: Stamps)
    ensures forall id :: id in st <==> 0 <= id < issued
    ensures forall id :: id in st ==> st[id] == id
  {
    if issued == 0 then map[] else PushOrder(issued - 1)[issued - 1 := issued - 1]
  }

  /** The moved timer was pushed after those in front of it with its new time, and before those behind it. */
  predicate KeepsPushOrder(l: Ledger, op: Op) {
    op.Delay? ==>
      var ts, i := l.q.timers, Find(l.q.timers, op.id);
      i < |ts| ==>
        && (i + 1 < |ts| ==> ts[i + 1].at <= op.at)
        && (forall k :: 0 <= k < i && ts[k].at == op.at ==> ts[k].id < op.id)
        && (forall k :: i < k < |ts| && ts[k].at == op.at ==> op.id < ts[k].id)
  }

  lemma DelayAndPushOrder(l: Ledger, id: TaskId, at: Time)
    requires Issued(l) && Ordered(l.q.timers, PushOrder(l.issued)) && Find(l.q.timers, id) < |l.q.timers|
    ensures Ordered(Delayed(l.q.timers, id, at), PushOrder(l.issued)) <==> KeepsPushOrder(l, Delay(id, at))
  {
    var ts, i, st := l.q.timers, Find(l.q.timers, id), PushOrder(l.issued);
    DelayedIsRescheduled(ts, id, at);
    RescheduleSorted(ts, i, at);
    RescheduleLatest(ts, i, at, st, st);
    PushedBetween(ts, i, at, l.issued);
  }

  lemma PushedBetween(ts: seq<Timer>, i: nat, at: Time, issued: TaskId)
    requires Stamped(ts, PushOrder(issued)) && i < |ts|
    requires Stamped(ts[..i], PushOrder(issued)) && Stamped(ts[i + 1..], PushOrder(issued))
    ensures NewestAt(ts[..i], Timer(at, ts[i].id), PushOrder(issued))
      <==> forall k :: 0 <= k < i && ts[k].at == at ==> ts[k].id < ts[i].id
    ensures InFrontOf([Timer(at, ts[i].id)], ts[i + 1..], PushOrder(issued))
      <==> forall k :: i < k < |ts| && ts[k].at == at ==> ts[i].id < ts[k].id
  {
    NewerThanFront(ts, i, Timer(at, ts[i].id), PushOrder(issued));
    OlderThanTail(ts, i, Timer(at, ts[i].id), PushOrder(issued));
  }

  /** One operation keeps the latest pushed first exactly when it is no delay that mixes the push order. */
  lemma PushOrderStep(l: Ledger, op: Op)
    requires Issued(l) && Ordered(l.q.timers, PushOrder(l.issued))
    ensures Ordered(Apply(l, op).q.timers, PushOrder(Apply(l, op).issued)) <==> KeepsPushOrder(l, op)
  {
    match op {
      case Push => MoreIssued(l.q.timers, l.issued);
      case PushDelayed(at) => PushedLast(l, at);
      case Delay(id, at) =>
        if Find(l.q.timers, id) < |l.q.timers| {
          DelayAndPushOrder(l, id, at);
        }
      case Cancel(id) =>
        if Find(l.q.timers, id) < |l.q.timers| {
          RemoveKeepsLatest(l.q.timers, Find(l.q.timers, id), PushOrder(l.issued));
        }
      case Pop(now) => PopKeepsLatest(l.q, now, PushOrder(l.issued));
    }
  }

  lemma PushedLast(l: Ledger, at: Time)
    requires Issued(l) && Ordered(l.q.timers, PushOrder(l.issued))
    ensures Ordered(Insert(l.q.timers, Timer(at, l.issued)), PushOrder(l.issued + 1))
  {
    MoreIssued(l.q.timers, l.issued);
    InsertSplits(l.q.timers, Timer(at, l.issued));
    InsertLatest(l.q.timers, Timer(at, l.issued), PushOrder(l.issued + 1));
  }

  lemma MoreIssued(ts: seq<Timer>, n: TaskId)
    requires Ordered(ts, PushOrder(n))
    ensures Ordered(ts, PushOrder(n + 1))
  {
  }

  /** A postponing delay keeps the push order exactly when no timer pushed later already has the new time. */
  lemma PostponingAndPushOrder(l: Ledger, op: Op)
    requires Issued(l) && Ordered(l.q.timers, PushOrder(l.issued)) && op.Delay?
    requires Find(l.q.timers, op.id) < |l.q.timers|
    requires Postpones(l, op)
    ensures Ordered(Apply(l, op).q.timers, PushOrder(l.issued)) <==>
      forall k :: 0 <= k < |l.q.timers| && l.q.timers[k].at == op.at ==> l.q.timers[k].id < op.id
  {
    PushOrderStep(l, op);
  }

  /** The latest pushed fires first in every run whose delays keep the push order. */
  lemma {:induction false} AlwaysLatestFirst(ops: seq<Op>)
    requires forall k :: 0 <= k < |ops| ==> KeepsPushOrder(Run(ops[..k]), ops[k])
    ensures Ordered(Run(ops).q.timers, PushOrder(Run(ops).issued))
  {
    if ops != [] {
      var before, op := ops[..|ops| - 1], ops[|ops| - 1];
      assert forall k :: 0 <= k < |before| ==> before[..k] == ops[..k];
      AlwaysLatestFirst(before);
      RunIssued(before);
      PushOrderStep(Run(before), op);
    }
  }

  lemma RunMore(ops: seq<Op>, op: Op)
    ensures Run(ops + [op]) == Apply(Run(ops), op)
  {
    assert (ops + [op])[..|ops|] == ops;
  }

  lemma TwoPushes()
    ensures Run([PushDelayed(5), PushDelayed(10)]) == Ledger(Queues([], [Timer(10, 1), Timer(5, 0)]), 2, [], [])
  {
    RunMore([], PushDelayed(5));
    RunMore([PushDelayed(5)], PushDelayed(10));
    assert [] + [PushDelayed(5)] == [PushDelayed(5)]
      && [PushDelayed(5)] + [PushDelayed(10)] == [PushDelayed(5), PushDelayed(10)];
    assert Insert([], Timer(5, 0)) == [Timer(5, 0)];
    assert Insert([Timer(5, 0)], Timer(10, 1)) == [Timer(10, 1), Timer(5, 0)];
  }

  lemma PostponedOlder()
    ensures Delayed([Timer(10, 1), Timer(5, 0)], 0, 10) == [Timer(10, 1), Timer(10, 0)]
  {
    var ts := [Timer(10, 1), Timer(5, 0)];
    FindIs(ts, 0, 1);
    DelayedIsRescheduled(ts, 0, 10);
    assert ts[..1] == [Timer(10, 1)] && ts[2..] == [];
    SlotIs([Timer(10, 1)], 10, 1);
  }

  /** Postponing the older of two timers to the time of the newer makes the older fire first. */
  lemma PostponingBreaksPushOrder()
    ensures Postpones(Run([PushDelayed(5), PushDelayed(10)]), Delay(0, 10))
    ensures var l := Run([PushDelayed(5), PushDelayed(10), Delay(0, 10)]);
      l.q == Queues([], [Timer(10, 1), Timer(10, 0)]) && TakeNext(l.q, 10).1 == Some(0)
  {
    var b: seq<Op> := [PushDelayed(5), PushDelayed(10)];
    TwoPushes();
    FindIs([Timer(10, 1), Timer(5, 0)], 0, 1);
    PostponedOlder();
    RunMore(b, Delay(0, 10));
    assert b + [Delay(0, 10)] == [PushDelayed(5), PushDelayed(10), Delay(0, 10)];
  }
}
