/**
 * What the host sees of a client's input through the queue of src/input.cpp: every change that is not a mere sample, in
 * the order the client made it, whatever is merged; and that a take merges all it can.
 */
module BatchLaws {
  import opened Basics
  import opened InputBatching

  /** A change to see, or a packet that is never merged. */
  datatype Entry<M> = Sample(mark: M) | Whole(p: Packet)

  /** What is seen of the packets in `keep`, if `prev` was seen before: each mark once as long as it lasts. */
  function Outline<M(==)>(s: seq<Packet>, keep: Packet -> bool, mark: Packet -> M, prev: Option<M>): seq<Entry<M>> {
    if s == [] then []
    else if !keep(s[0]) then Outline(s[1..], keep, mark, prev)
    else if Discrete(s[0]) then [Whole(s[0])] + Outline(s[1..], keep, mark, None)
    else if prev == Some(mark(s[0])) then Outline(s[1..], keep, mark, prev)
    else [Sample(mark(s[0]))] + Outline(s[1..], keep, mark, Some(mark(s[0])))
  }

  /** What was seen last. */
  function Last<M>(o: seq<Entry<M>>, prev: Option<M>): Option<M> {
    if o == [] then prev
    else match o[|o| - 1] case Sample(m) => Some(m) case Whole(_) => None
  }

  lemma LastBehind<M>(e: Entry<M>, o: seq<Entry<M>>, prev: Option<M>)
    ensures Last([e] + o, prev) == Last(o, match e case Sample(m) => Some(m) case Whole(_) => None)
  {
  }

  lemma {:induction false} OutlineConcat<M>(a: seq<Packet>, b: seq<Packet>, keep: Packet -> bool, mark: Packet -> M,
                                            prev: Option<M>)
    ensures var o := Outline(a, keep, mark, prev);
      Outline(a + b, keep, mark, prev) == o + Outline(b, keep, mark, Last(o, prev))
    decreases |a|
  {
    if a == [] {
      assert a + b == b;
    } else {
      assert (a + b)[1..] == a[1..] + b;
      if !keep(a[0]) {
        OutlineConcat(a[1..], b, keep, mark, prev);
      } else if Discrete(a[0]) {
        OutlineConcat(a[1..], b, keep, mark, None);
        LastBehind(Whole(a[0]), Outline(a[1..], keep, mark, None), prev);
      } else {
        OutlineConcat(a[1..], b, keep, mark, Some(mark(a[0])));
        LastBehind(Sample(mark(a[0])), Outline(a[1..], keep, mark, Some(mark(a[0]))), prev);
      }
    }
  }

  /** Merging and passing over change nothing that is seen. */
  ghost predicate Fitting<M(!new)>(keep: Packet -> bool, mark: Packet -> M) {
    && (forall d, s :: Batch(d, s).Batched? ==>
          var m := Batch(d, s).merged;
          && !Discrete(d) && !Discrete(s) && !Discrete(m) && keep(s) == keep(d) == keep(m)
          && (keep(d) ==> mark(s) == mark(d) == mark(m)))
    && (forall d, s :: Batch(d, s).NotBatchable? && keep(d) ==>
          !Discrete(d) && (keep(s) ==> !Discrete(s) && mark(s) == mark(d)))
  }

  lemma {:induction false} ScanKeepsOutline<M(!new)>(dest: Packet, rest: seq<Packet>, keep: Packet -> bool,
                                               mark: Packet -> M, prev: Option<M>)
    requires Fitting(keep, mark) && (keep(dest) && !Discrete(dest) ==> prev == Some(mark(dest)))
    ensures var (d, r) := Scan(dest, rest);
      && Outline(r, keep, mark, prev) == Outline(rest, keep, mark, prev)
      && keep(d) == keep(dest) && Discrete(d) == Discrete(dest) && (Discrete(dest) && keep(dest) ==> d == dest)
      && (keep(dest) ==> mark(d) == mark(dest))
    decreases |rest|
  {
    if rest != [] {
      match Batch(dest, rest[0]) {
        case Terminate =>
        case Batched(merged) => ScanKeepsOutline(merged, rest[1..], keep, mark, prev);
        case NotBatchable =>
          var next := if !keep(rest[0]) then prev else if Discrete(rest[0]) then None else Some(mark(rest[0]));
          ScanKeepsOutline(dest, rest[1..], keep, mark, next);
          assert ([rest[0]] + Scan(dest, rest[1..]).1)[1..] == Scan(dest, rest[1..]).1;
      }
    }
  }

  lemma OutlineCons<M>(p: Packet, s: seq<Packet>, keep: Packet -> bool, mark: Packet -> M, prev: Option<M>)
    ensures Outline([p] + s, keep, mark, prev) ==
      if !keep(p) then Outline(s, keep, mark, prev)
      else if Discrete(p) then [Whole(p)] + Outline(s, keep, mark, None)
      else (if prev == Some(mark(p)) then [] else [Sample(mark(p))]) + Outline(s, keep, mark, Some(mark(p)))
  {
    assert ([p] + s)[1..] == s;
  }

  lemma TakeKeepsOutline<M(!new)>(dest: Packet, rest: seq<Packet>, keep: Packet -> bool, mark: Packet -> M,
                           prev: Option<M>)
    requires Fitting(keep, mark)
    ensures var (d, r) := Scan(dest, rest);
      Outline([d] + r, keep, mark, prev) == Outline([dest] + rest, keep, mark, prev)
  {
    var (d, r) := Scan(dest, rest);
    OutlineCons(dest, rest, keep, mark, prev);
    OutlineCons(d, r, keep, mark, prev);
    var next := if !keep(dest) then prev else if Discrete(dest) then None else Some(mark(dest));
    ScanKeepsOutline(dest, rest, keep, mark, next);
  }

  /**
   * Over every interleaving of arrivals and processing, what was sent and is queued has the outline of what was
   * received.
   */
  lemma {:induction false} RunKeepsOutline<M(!new)>(events: seq<Event>, keep: Packet -> bool, mark: Packet -> M)
    requires Fitting(keep, mark)
    ensures Outline(Run(events).sent + Run(events).queue, keep, mark, None) == Outline(Run(events).received, keep, mark,
      None)
    decreases |events|
  {
    if events != [] {
      var e, h := events[|events| - 1], Run(events[..|events| - 1]);
      RunKeepsOutline(events[..|events| - 1], keep, mark);
      if e.Arrive? {
        OutlineConcat(h.sent + h.queue, [e.p], keep, mark, None);
        OutlineConcat(h.received, [e.p], keep, mark, None);
        assert h.sent + (h.queue + [e.p]) == (h.sent + h.queue) + [e.p];
      } else if h.queue != [] {
        ProcessKeepsOutline(h, keep, mark);
      }
    }
  }

  lemma ProcessKeepsOutline<M(!new)>(h: History, keep: Packet -> bool, mark: Packet -> M)
    requires Fitting(keep, mark) && h.queue != []
    ensures var t := Step(h, Process);
      Outline(t.sent + t.queue, keep, mark, None) == Outline(h.sent + h.queue, keep, mark, None)
  {
    var (d, r) := Scan(h.queue[0], h.queue[1..]);
    var seen := Last(Outline(h.sent, keep, mark, None), None);
    assert [h.queue[0]] + h.queue[1..] == h.queue;
    TakeKeepsOutline(h.queue[0], h.queue[1..], keep, mark, seen);
    OutlineConcat(h.sent, h.queue, keep, mark, None);
    OutlineConcat(h.sent, [d] + r, keep, mark, None);
    assert (h.sent + [d]) + r == h.sent + ([d] + r);
  }

  lemma DrainedKeepsOutline<M(!new)>(events: seq<Event>, keep: Packet -> bool, mark: Packet -> M)
    requires Fitting(keep, mark) && Run(events).queue == []
    ensures Outline(Run(events).sent, keep, mark, None) == Outline(Run(events).received, keep, mark, None)
  {
    RunKeepsOutline(events, keep, mark);
    assert Run(events).sent + Run(events).queue == Run(events).sent;
  }

  // ----- of one device, pointer or sensor -----

  function OfKey(k: Key): Packet -> bool {
    (p: Packet) => KeyOf(p) == k
  }

  lemma OneKeyFits(k: Key)
    ensures Fitting(OfKey(k), MarkOf)
  {
    forall d, s | Batch(d, s).Batched?
      ensures !Discrete(d) && !Discrete(s) && !Discrete(Batch(d, s).merged)
      ensures KeyOf(s) == KeyOf(d) == KeyOf(Batch(d, s).merged) && MarkOf(s) == MarkOf(d) == MarkOf(Batch(d, s).merged)
    {
      if !Adds(d) {
        MergedExactly(d, s);
      }
    }
    forall d, s | Batch(d, s).NotBatchable?
      ensures KeyOf(s) != KeyOf(d) && !Discrete(d)
    {
      PassedExactly(d, s);
    }
  }

  /**
   * A drained run delivers, of each device, pointer or sensor, every change of buttons, mask, event, tool or reference
   * size, and every event that is neither move nor hover, exactly as often and in the order as the client sent it.
   */
  lemma ChangesArrive(events: seq<Event>, k: Key)
    requires Run(events).queue == []
    ensures Outline(Run(events).sent, OfKey(k), MarkOf, None) == Outline(Run(events).received, OfKey(k), MarkOf, None)
  {
    OneKeyFits(k);
    DrainedKeepsOutline(events, OfKey(k), MarkOf);
  }

  // ----- across devices -----

  /** What samples of different devices, pointers or sensors may change places in. */
  datatype Stage =
    | Controllers(activeMask: int)
    | Touches
    | ControllerTouches
    | Motions
    | Alone(key: Key, mark: Mark)

  function StageOf(p: Packet): Stage {
    match p
    case Controller(_, m, _, _, _) => Controllers(m)
    case Touch(_, _, _) => Touches
    case ControllerTouch(_, _, _, _) => ControllerTouches
    case Motion(_, _, _) => Motions
    case _ => Alone(KeyOf(p), MarkOf(p))
  }

  /** Everything, but of the controllers with a touchpad only one. */
  function OneTouchpad(number: int): Packet -> bool {
    (p: Packet) => p.ControllerTouch? ==> p.number == number
  }

  lemma StagesFit(number: int)
    ensures Fitting(OneTouchpad(number), StageOf)
  {
    forall d, s | Batch(d, s).Batched?
      ensures !Discrete(d) && !Discrete(s) && !Discrete(Batch(d, s).merged)
      ensures KeyOf(s) == KeyOf(d) == KeyOf(Batch(d, s).merged)
      ensures StageOf(s) == StageOf(d) == StageOf(Batch(d, s).merged)
    {
      if !Adds(d) {
        MergedExactly(d, s);
      }
    }
    forall d, s | Batch(d, s).NotBatchable?
      ensures MayPass(d, s)
    {
      PassedExactly(d, s);
    }
  }

  /**
   * Over all devices together: key presses, clicks, touches put down and lifted, and changes of the set of controllers
   * arrive in the order the client sent them; only samples between two such changes are reordered. Of the controllers
   * with a touchpad this holds for each one.
   */
  lemma StagesArriveInOrder(events: seq<Event>, number: int)
    requires Run(events).queue == []
    ensures Outline(Run(events).sent, OneTouchpad(number), StageOf, None)
         == Outline(Run(events).received, OneTouchpad(number), StageOf, None)
  {
    StagesFit(number);
    DrainedKeepsOutline(events, OneTouchpad(number), StageOf);
  }

  /** Two touchpads: the finger of one is put down after the other has moved, and arrives after its next move too. */
  lemma TouchpadsOvertake(down: Packet, a: Packet, b: Packet)
    requires a.ControllerTouch? && b.ControllerTouch? && down.ControllerTouch? && down.number != a.number
    requires Discrete(down) && Replaces(b, a)
    ensures Scan(a, [down, b]) == (b, [down])
  {
    MergedExactly(a, b);
    PassedExactly(a, down);
    assert [down, b][1..] == [b] && [b][1..] == [];
    assert Scan(a, [b]) == (b, []);
    assert [down] + [] == [down];
  }

  // ----- a take merges all it can -----

  lemma SameVerdict(a: Packet, b: Packet, x: Packet)
    requires !Adds(a) && Batch(a, b).Batched?
    ensures MayPass(a, x) <==> MayPass(Batch(a, b).merged, x)
  {
    MergedExactly(a, b);
  }

  /**
   * Up to where a take stops, everything that is left is of others and may stay; there it meets the end or a packet
   * that bars it.
   */
  lemma {:induction false} ScanMergesAll(dest: Packet, rest: seq<Packet>) returns (stop: nat)
    ensures var (d, r) := Scan(dest, rest);
      && stop <= |r| && (forall j :: 0 <= j < stop ==> MayPass(d, r[j]))
      && (forall x :: !Adds(dest) ==> (MayPass(d, x) <==> MayPass(dest, x)))
      && (stop < |r| ==> !MayPass(d, r[stop]) && (!Adds(d) ==> !Replaces(r[stop], d)))
      && (Adds(dest) <==> Adds(d))
    decreases |rest|
  {
    stop := 0;
    if rest != [] {
      PassedExactly(dest, rest[0]);
      match Batch(dest, rest[0]) {
        case Terminate =>
          if !Adds(dest) {
            MergedExactly(dest, rest[0]);
          }
        case Batched(merged) =>
          stop := ScanMergesAll(merged, rest[1..]);
          forall x | !Adds(dest)
            ensures MayPass(merged, x) <==> MayPass(dest, x)
          {
            SameVerdict(dest, rest[0], x);
          }
        case NotBatchable =>
          stop := ScanMergesAll(dest, rest[1..]);
          stop := stop + 1;
      }
    }
  }
}
