/**
 * The input queue of src/input.cpp: packets are queued in arrival order, and each time
 * one is taken from the front, later packets that only refine it are merged into it.
 */
module InputBatching {
  import opened Basics

  type Int16 = x: int | -0x8000 <= x < 0x8000

  datatype EventType = Hover | Move | OtherEvent(code: int)

  /** Decoded packets. `rest` stands for the fields that batch() neither compares nor computes with. */
  datatype Packet =
    | RelMouse(dx: Int16, dy: Int16)
    | AbsMouse(width: int, height: int, rest: int)
    | Scroll(amount: Int16)
    | HScroll(amount: Int16)
    | Controller(number: int, activeMask: int, buttons: int, buttons2: int, rest: int)
    | Touch(event: EventType, pointer: int, rest: int)
    | Pen(event: EventType, tool: int, penButtons: int, rest: int)
    | ControllerTouch(number: int, event: EventType, pointer: int, rest: int)
    | Motion(number: int, sensor: int, rest: int)
    | Other(magic: int, rest: int)

  /** What a packet is about: the sequence of packets with one key is what must keep its meaning. */
  datatype Key =
    | RelMouseKey | AbsMouseKey | ScrollKey | HScrollKey | PenKey | OtherKey
    | ControllerKey(number: int) | TouchKey(pointer: int) | ControllerTouchKey(number: int, pointer: int)
    | MotionKey(number: int, sensor: int)

  function KeyOf(p: Packet): Key {
    match p
    case RelMouse(_, _) => RelMouseKey
    case AbsMouse(_, _, _) => AbsMouseKey
    case Scroll(_) => ScrollKey
    case HScroll(_) => HScrollKey
    case Controller(n, _, _, _, _) => ControllerKey(n)
    case Touch(_, pointer, _) => TouchKey(pointer)
    case Pen(_, _, _, _) => PenKey
    case ControllerTouch(n, _, pointer, _) => ControllerTouchKey(n, pointer)
    case Motion(n, sensor, _) => MotionKey(n, sensor)
    case Other(_, _) => OtherKey
  }

  datatype Verdict = Batched(merged: Packet) | NotBatchable | Terminate

  predicate Continuous(e: EventType) { e.Move? || e.Hover? }

  predicate Fits(x: int) { -0x8000 <= x < 0x8000 }

  /** The low 16 bits, read as a signed number: what __builtin_add_overflow stores. */
  function Wrap(x: int): (w: Int16)
    ensures (w - x) % 0x10000 == 0
  {
    (x + 0x8000) % 0x10000 - 0x8000
  }

  /** batch(dest, src), all overloads. */
  function Batch(dest: Packet, src: Packet): Verdict {
    match (dest, src)
    case (RelMouse(dx, dy), RelMouse(sx, sy)) =>
      // the test is inverted in the code: the sum is taken only when it does overflow
      if Fits(dx + sx) || Fits(dy + sy) then Terminate
      else Batched(RelMouse(Wrap(dx + sx), Wrap(dy + sy)))
    case (AbsMouse(w, h, _), AbsMouse(w', h', _)) =>
      if w != w' || h != h' then Terminate else Batched(src)
    case (Scroll(d), Scroll(s)) =>
      if Fits(d + s) then Terminate else Batched(Scroll(Wrap(d + s)))
    case (HScroll(d), HScroll(s)) =>
      if Fits(d + s) then Terminate else Batched(HScroll(Wrap(d + s)))
    case (Controller(n, m, b, b2, _), Controller(n', m', b', b2', _)) =>
      if m != m' then Terminate
      else if n != n' then NotBatchable
      else if b != b' || b2 != b2' then Terminate
      else Batched(src)
    case (Touch(e, id, _), Touch(e', id', _)) =>
      if !Continuous(e) || !Continuous(e') then Terminate
      else if id != id' then NotBatchable
      else if e != e' then Terminate
      else Batched(src)
    case (Pen(e, tool, b, _), Pen(e', tool', b', _)) =>
      if !Continuous(e) || e != e' || b != b' || tool != tool' then Terminate else Batched(src)
    case (ControllerTouch(n, e, id, _), ControllerTouch(n', e', id', _)) =>
      if !Continuous(e) then Terminate
      else if n != n' then NotBatchable
      else if !Continuous(e') then Terminate
      else if id != id' then NotBatchable
      else if e != e' then Terminate
      else Batched(src)
    case (Motion(n, sensor, _), Motion(n', sensor', _)) =>
      if n != n' || sensor != sensor' then NotBatchable else Batched(src)
    case _ => Terminate
  }

  // ----- taking one message from the queue -----

  /** What passthrough_next_message sends, starting from `dest`, and what it leaves in the queue. */
  function Scan(dest: Packet, rest: seq<Packet>): (Packet, seq<Packet>)
    decreases rest
  {
    if rest == [] then (dest, [])
    else
      match Batch(dest, rest[0])
      case Terminate => (dest, rest)
      case Batched(merged) => Scan(merged, rest[1..])
      case NotBatchable => var (d, r) := Scan(dest, rest[1..]); (d, [rest[0]] + r)
  }

  datatype Event = Arrive(p: Packet) | Process

  datatype History = History(queue: seq<Packet>, received: seq<Packet>, sent: seq<Packet>)

  function Step(h: History, e: Event): History {
    match e
    case Arrive(p) => h.(queue := h.queue + [p], received := h.received + [p])
    case Process =>
      if h.queue == [] then h
      else var (d, r) := Scan(h.queue[0], h.queue[1..]); h.(queue := r, sent := h.sent + [d])
  }

  function Run(events: seq<Event>): History {
    if events == [] then History([], [], [])
    else Step(Run(events[..|events| - 1]), events[|events| - 1])
  }

  /** The queue of one input context; each method is one critical section of input_queue_lock. */
  class InputQueue {
    var queue: seq<Packet>

    constructor ()
      ensures queue == []
    {
      queue := [];
    }

    method Enqueue(p: Packet)
      modifies this
      ensures queue == old(queue) + [p]
    {
      queue := queue + [p];
    }

    method ProcessNext() returns (sent: Option<Packet>)
      modifies this
      ensures old(queue) == [] ==> sent == None && queue == []
      ensures old(queue) != [] ==>
        sent.Some? && (sent.value, queue) == Scan(old(queue)[0], old(queue)[1..])
    {
      if queue == [] {
        return None;
      }
      ghost var expected := Scan(queue[0], queue[1..]);
      var payload := queue[0];
      queue := queue[1..];
      var i := 0;
      assert queue[..0] == [] && queue[0..] == queue;
      assert [] + expected.1 == expected.1;
      while i < |queue|
        invariant i <= |queue|
        invariant expected == Continued(queue[..i], payload, queue[i..])
      {
        ContinuedStep(queue, i, payload);
        match Batch(payload, queue[i]) {
          case Terminate =>
            return Some(payload);
          case Batched(merged) =>
            payload := merged;
            queue := queue[..i] + queue[i + 1..];
          case NotBatchable =>
            i := i + 1;
        }
      }
      assert queue[i..] == [] && queue[..i] + [] == queue;
      return Some(payload);
    }
  }

  /** The rest of the scan, with `kept` already passed over. */
  ghost function Continued(kept: seq<Packet>, dest: Packet, rest: seq<Packet>): (Packet, seq<Packet>) {
    (Scan(dest, rest).0, kept + Scan(dest, rest).1)
  }

  lemma ContinuedStep(queue: seq<Packet>, i: nat, dest: Packet)
    requires i < |queue|
    ensures var c := Continued(queue[..i], dest, queue[i..]);
      match Batch(dest, queue[i])
      case Terminate => c == (dest, queue)
      case Batched(merged) =>
        var shorter := queue[..i] + queue[i + 1..];
        c == Continued(shorter[..i], merged, shorter[i..])
      case NotBatchable => c == Continued(queue[..i + 1], dest, queue[i + 1..])
  {
    assert queue[i..][1..] == queue[i + 1..] && queue[..i] + queue[i..] == queue;
    var shorter := queue[..i] + queue[i + 1..];
    assert shorter[..i] == queue[..i] && shorter[i..] == queue[i + 1..];
    assert queue[..i + 1] == queue[..i] + [queue[i]];
    var r := Scan(dest, queue[i + 1..]).1;
    assert queue[..i + 1] + r == queue[..i] + ([queue[i]] + r);
  }

  // ----- merging neighbours -----

  function MergeAt(s: seq<Packet>, i: nat): seq<Packet>
    requires i + 1 < |s| && Batch(s[i], s[i + 1]).Batched?
  {
    s[..i] + [Batch(s[i], s[i + 1]).merged] + s[i + 2..]
  }

  predicate CanMerge(s: seq<Packet>, i: nat) {
    i + 1 < |s| && Batch(s[i], s[i + 1]).Batched?
  }

  /** `d` comes from `o` by merging two neighbours at each of the positions `at`, one after the other. */
  ghost predicate Reduces(o: seq<Packet>, d: seq<Packet>, at: seq<nat>)
    decreases |at|
  {
    if at == [] then o == d else CanMerge(o, at[0]) && Reduces(MergeAt(o, at[0]), d, at[1..])
  }

  lemma {:induction false} ReducesTransitive(a: seq<Packet>, b: seq<Packet>, c: seq<Packet>, at: seq<nat>,
                                             then_: seq<nat>)
    requires Reduces(a, b, at) && Reduces(b, c, then_)
    ensures Reduces(a, c, at + then_)
    decreases |at|
  {
    if at == [] {
      assert at + then_ == then_;
    } else {
      assert (at + then_)[1..] == at[1..] + then_;
      ReducesTransitive(MergeAt(a, at[0]), b, c, at[1..], then_);
    }
  }

  lemma MergeWithin(pre: seq<Packet>, o: seq<Packet>, post: seq<Packet>, i: nat)
    requires CanMerge(o, i)
    ensures CanMerge(pre + o + post, |pre| + i)
    ensures MergeAt(pre + o + post, |pre| + i) == pre + MergeAt(o, i) + post
  {
    var whole := pre + o + post;
    assert whole[|pre| + i] == o[i] && whole[|pre| + i + 1] == o[i + 1];
    assert whole[..|pre| + i] == pre + o[..i];
    assert whole[|pre| + i + 2..] == o[i + 2..] + post;
  }

  /** Merging inside a stretch is merging inside the whole. */
  lemma {:induction false} ReducesWithin(pre: seq<Packet>, o: seq<Packet>, d: seq<Packet>, post: seq<Packet>,
                                         at: seq<nat>)
    returns (at': seq<nat>)
    requires Reduces(o, d, at)
    ensures Reduces(pre + o + post, pre + d + post, at')
    decreases |at|
  {
    at' := [];
    if at != [] {
      MergeWithin(pre, o, post, at[0]);
      at' := ReducesWithin(pre, MergeAt(o, at[0]), d, post, at[1..]);
      at' := [|pre| + at[0]] + at';
    }
  }

  /** Each merge makes one packet of two. */
  lemma {:induction false} ReducesShortens(o: seq<Packet>, d: seq<Packet>, at: seq<nat>)
    requires Reduces(o, d, at)
    ensures |o| == |d| + |at|
    decreases |at|
  {
    if at != [] {
      ReducesShortens(MergeAt(o, at[0]), d, at[1..]);
    }
  }

  // ----- what batching may reorder -----

  function Kind(k: Key): nat {
    match k
    case RelMouseKey => 0
    case AbsMouseKey => 1
    case ScrollKey => 2
    case HScrollKey => 3
    case PenKey => 4
    case OtherKey => 5
    case ControllerKey(_) => 6
    case TouchKey(_) => 7
    case ControllerTouchKey(_, _) => 8
    case MotionKey(_, _) => 9
  }

  /**
   * A choice of at most one key of each kind: one controller, one pointer, one sensor, and everything that has no such
   * number.
   */
  predicate OnePerKind(keys: set<Key>) {
    forall k, l :: k in keys && l in keys && Kind(k) == Kind(l) ==> k == l
  }

  function Project(s: seq<Packet>, keys: set<Key>): seq<Packet> {
    if s == [] then []
    else if KeyOf(s[0]) in keys then [s[0]] + Project(s[1..], keys)
    else Project(s[1..], keys)
  }

  lemma {:induction false} ProjectConcat(a: seq<Packet>, b: seq<Packet>, keys: set<Key>)
    ensures Project(a + b, keys) == Project(a, keys) + Project(b, keys)
  {
    if a == [] {
      assert a + b == b;
    } else {
      assert (a + b)[1..] == a[1..] + b;
      ProjectConcat(a[1..], b, keys);
    }
  }

  /** Only packets with one key are merged, and only packets of the same kind with another key are passed over. */
  lemma BatchRespectsKeys(dest: Packet, src: Packet)
    ensures Batch(dest, src).Batched? ==> KeyOf(src) == KeyOf(dest) == KeyOf(Batch(dest, src).merged)
    ensures Batch(dest, src).NotBatchable? ==> KeyOf(src) != KeyOf(dest) && Kind(KeyOf(src)) == Kind(KeyOf(dest))
  {
  }

  lemma {:induction false} ScanKeepsKey(dest: Packet, rest: seq<Packet>)
    ensures KeyOf(Scan(dest, rest).0) == KeyOf(dest)
    decreases rest
  {
    if rest != [] {
      BatchRespectsKeys(dest, rest[0]);
      match Batch(dest, rest[0]) {
        case Terminate =>
        case Batched(merged) => ScanKeepsKey(merged, rest[1..]);
        case NotBatchable => ScanKeepsKey(dest, rest[1..]);
      }
    }
  }

  lemma ProjectCons(p: Packet, s: seq<Packet>, keys: set<Key>)
    ensures Project([p] + s, keys) == if KeyOf(p) in keys then [p] + Project(s, keys) else Project(s, keys)
  {
    assert ([p] + s)[1..] == s;
  }

  /**
   * Seen through one key per kind, taking a message is merging neighbours: nothing is dropped, duplicated or reordered.
   */
  lemma {:induction false} ScanReduces(dest: Packet, rest: seq<Packet>, keys: set<Key>) returns (at: seq<nat>)
    requires OnePerKind(keys)
    ensures Reduces(Project([dest] + rest, keys), Project([Scan(dest, rest).0] + Scan(dest, rest).1, keys), at)
    decreases rest
  {
    at := [];
    if rest != [] {
      assert [rest[0]] + rest[1..] == rest;
      BatchRespectsKeys(dest, rest[0]);
      match Batch(dest, rest[0]) {
        case Terminate =>
        case Batched(merged) =>
          at := ScanReduces(merged, rest[1..], keys);
          at := MergeFirst(dest, rest[0], rest[1..], [Scan(dest, rest).0] + Scan(dest, rest).1, keys, at);
        case NotBatchable =>
          at := ScanReduces(dest, rest[1..], keys);
          ScanKeepsKey(dest, rest[1..]);
          at := PassOver(dest, rest[0], rest[1..], Scan(dest, rest[1..]).0, Scan(dest, rest[1..]).1, keys, at);
      }
    }
  }

  lemma MergeFirst(dest: Packet, s: Packet, rest: seq<Packet>, d: seq<Packet>, keys: set<Key>, at: seq<nat>)
    returns (at': seq<nat>)
    requires Batch(dest, s).Batched? && Reduces(Project([Batch(dest, s).merged] + rest, keys), Project(d, keys), at)
    ensures Reduces(Project([dest] + ([s] + rest), keys), Project(d, keys), at')
  {
    BatchRespectsKeys(dest, s);
    ProjectCons(dest, [s] + rest, keys);
    ProjectCons(s, rest, keys);
    ProjectCons(Batch(dest, s).merged, rest, keys);
    at' := at;
    if KeyOf(dest) in keys {
      MergeHead(dest, s, Project(rest, keys), Project(d, keys), at);
      at' := [0] + at;
    }
  }

  /** Merging the first two packets comes before all other merges. */
  lemma MergeHead(a: Packet, b: Packet, tail: seq<Packet>, d: seq<Packet>, at: seq<nat>)
    requires Batch(a, b).Batched? && Reduces([Batch(a, b).merged] + tail, d, at)
    ensures Reduces([a] + ([b] + tail), d, [0] + at)
  {
    var o := [a] + ([b] + tail);
    assert o[..0] == [] && o[0] == a && o[1] == b && o[2..] == tail;
    assert MergeAt(o, 0) == [Batch(a, b).merged] + tail;
    assert ([0] + at)[1..] == at;
  }

  lemma PassOver(dest: Packet, s: Packet, rest: seq<Packet>, d: Packet, r: seq<Packet>, keys: set<Key>, at: seq<nat>)
    returns (at': seq<nat>)
    requires OnePerKind(keys) && Batch(dest, s).NotBatchable? && KeyOf(d) == KeyOf(dest)
    requires Reduces(Project([dest] + rest, keys), Project([d] + r, keys), at)
    ensures Reduces(Project([dest] + ([s] + rest), keys), Project([d] + ([s] + r), keys), at')
  {
    BatchRespectsKeys(dest, s);
    ProjectCons(dest, [s] + rest, keys);
    ProjectCons(s, rest, keys);
    ProjectCons(dest, rest, keys);
    ProjectCons(d, [s] + r, keys);
    ProjectCons(s, r, keys);
    ProjectCons(d, r, keys);
    at' := at;
    if KeyOf(s) in keys {
      assert KeyOf(dest) !in keys;
      at' := ReducesWithin([s], Project(rest, keys), Project(r, keys), [], at);
      assert [s] + Project(rest, keys) + [] == [s] + Project(rest, keys);
      assert [s] + Project(r, keys) + [] == [s] + Project(r, keys);
    }
  }

  lemma ArriveReduces(h: History, p: Packet, keys: set<Key>, at: seq<nat>) returns (at': seq<nat>)
    requires Reduces(Project(h.received, keys), Project(h.sent + h.queue, keys), at)
    ensures var t := Step(h, Arrive(p)); Reduces(Project(t.received, keys), Project(t.sent + t.queue, keys), at')
  {
    var tail := Project([p], keys);
    ProjectConcat(h.received, [p], keys);
    ProjectConcat(h.sent + h.queue, [p], keys);
    assert h.sent + h.queue + [p] == h.sent + (h.queue + [p]);
    var o, d := Project(h.received, keys), Project(h.sent + h.queue, keys);
    at' := ReducesInFront(o, d, tail, at);
  }

  lemma ReducesInFront(o: seq<Packet>, d: seq<Packet>, tail: seq<Packet>, at: seq<nat>) returns (at': seq<nat>)
    requires Reduces(o, d, at)
    ensures Reduces(o + tail, d + tail, at')
  {
    at' := ReducesWithin([], o, d, tail, at);
    assert [] + o + tail == o + tail && [] + d + tail == d + tail;
  }

  lemma ProcessReduces(h: History, keys: set<Key>) returns (at: seq<nat>)
    requires OnePerKind(keys) && h.queue != []
    ensures var t := Step(h, Process); Reduces(Project(h.sent + h.queue, keys), Project(t.sent + t.queue, keys), at)
  {
    var d, r := Scan(h.queue[0], h.queue[1..]).0, Scan(h.queue[0], h.queue[1..]).1;
    assert [h.queue[0]] + h.queue[1..] == h.queue;
    at := ScanReduces(h.queue[0], h.queue[1..], keys);
    var pre := Project(h.sent, keys);
    at := ReducesWithin(pre, Project(h.queue, keys), Project([d] + r, keys), [], at);
    ProjectConcat(h.sent, h.queue, keys);
    ProjectConcat(h.sent, [d] + r, keys);
    assert h.sent + ([d] + r) == (h.sent + [d]) + r;
    assert pre + Project(h.queue, keys) + [] == pre + Project(h.queue, keys);
    assert pre + Project([d] + r, keys) + [] == pre + Project([d] + r, keys);
  }

  /**
   * Over every interleaving of arrivals and processing: seen through one key per kind, what was sent and
   * is still queued is what was received, with some neighbours merged.
   */
  lemma {:induction false} RunReduces(events: seq<Event>, keys: set<Key>) returns (at: seq<nat>)
    requires OnePerKind(keys)
    ensures Reduces(Project(Run(events).received, keys), Project(Run(events).sent + Run(events).queue, keys), at)
  {
    at := [];
    if events != [] {
      var e := events[|events| - 1];
      var h, t := Run(events[..|events| - 1]), Run(events);
      at := RunReduces(events[..|events| - 1], keys);
      if e.Arrive? {
        at := ArriveReduces(h, e.p, keys, at);
      } else if h.queue != [] {
        var more := ProcessReduces(h, keys);
        ReducesTransitive(Project(h.received, keys), Project(h.sent + h.queue, keys), Project(t.sent + t.queue, keys),
          at, more);
        at := at + more;
      }
    }
  }

  // ----- what merging means for the host -----

  /** Relative mouse and scroll packets add up; for all others a later sample replaces an earlier one. */
  predicate Adds(p: Packet) { p.RelMouse? || p.Scroll? || p.HScroll? }

  predicate LastState(s: seq<Packet>) {
    forall i :: 0 <= i < |s| ==> !Adds(s[i])
  }

  /** What the host must see every change of, besides the samples themselves. */
  datatype Mark =
    | Plain
    | Reference(width: int, height: int)
    | Held(activeMask: int, buttons: int, buttons2: int)
    | Phase(event: EventType)
    | Stroke(event: EventType, tool: int, penButtons: int)

  function MarkOf(p: Packet): Mark {
    match p
    case AbsMouse(w, h, _) => Reference(w, h)
    case Controller(_, m, b, b2, _) => Held(m, b, b2)
    case Touch(e, _, _) => Phase(e)
    case Pen(e, tool, b, _) => Stroke(e, tool, b)
    case ControllerTouch(_, e, _, _) => Phase(e)
    case _ => Plain
  }

  /** Key presses, clicks and the like, and every touch or pen event that is neither a move nor a hover. */
  predicate Discrete(p: Packet) {
    match p
    case Touch(e, _, _) => e != Move && e != Hover
    case Pen(e, _, _, _) => e != Move && e != Hover
    case ControllerTouch(_, e, _, _) => e != Move && e != Hover
    case Other(_, _) => true
    case _ => false
  }

  /**
   * A later sample may stand for an earlier one: of the same device, pointer or sensor, with nothing to see changed.
   */
  predicate Replaces(later: Packet, earlier: Packet) {
    !Adds(earlier) && !Discrete(earlier) && KeyOf(later) == KeyOf(earlier) && MarkOf(later) == MarkOf(earlier)
  }

  /** A sample of another of the same kind does not stand in the way, unless something else changes with it. */
  predicate MayPass(dest: Packet, src: Packet) {
    && Kind(KeyOf(dest)) == Kind(KeyOf(src)) && KeyOf(dest) != KeyOf(src) && !Discrete(dest)
    && (Discrete(src) ==> dest.ControllerTouch? && dest.number != src.number)
    && (dest.Controller? ==> dest.activeMask == src.activeMask)
  }

  /**
   * Samples that replace one another are merged into the later, exactly those, and nothing else but deltas is merged.
   */
  lemma MergedExactly(dest: Packet, src: Packet)
    requires !Adds(dest)
    ensures Batch(dest, src).Batched? <==> Replaces(src, dest)
    ensures Batch(dest, src).Batched? ==> Batch(dest, src).merged == src
  {
  }

  lemma PassedExactly(dest: Packet, src: Packet)
    ensures Batch(dest, src).NotBatchable? <==> MayPass(dest, src)
  {
  }

  /** Every run of samples that replace one another, shortened to its last. */
  function Canon(s: seq<Packet>): seq<Packet> {
    if |s| < 2 then s
    else if Replaces(s[1], s[0]) then Canon(s[1..])
    else [s[0]] + Canon(s[1..])
  }

  /**
   * Among last-state packets, replacing is symmetric in its context: whoever precedes the earlier sample could precede
   * the later.
   */
  lemma ReplacingIsAClass(a: Packet, b: Packet, c: Packet)
    requires !Adds(b) && Batch(b, c).Batched?
    ensures Batch(b, c).merged == c && Replaces(c, b)
    ensures Replaces(b, a) <==> Replaces(c, a)
  {
  }

  lemma {:induction false} MergeKeepsCanon(s: seq<Packet>, i: nat)
    requires LastState(s) && CanMerge(s, i)
    ensures Canon(MergeAt(s, i)) == Canon(s) && LastState(MergeAt(s, i))
  {
    ReplacingIsAClass(s[0], s[i], s[i + 1]);
    var m := MergeAt(s, i);
    if i == 0 {
      assert m == s[1..];
    } else {
      assert m == [s[0]] + MergeAt(s[1..], i - 1);
      assert m[1..] == MergeAt(s[1..], i - 1);
      assert i == 1 ==> m[1] == s[2];
      MergeKeepsCanon(s[1..], i - 1);
    }
  }

  lemma {:induction false} ReducesKeepsCanon(o: seq<Packet>, d: seq<Packet>, at: seq<nat>)
    requires LastState(o) && Reduces(o, d, at)
    ensures Canon(o) == Canon(d)
    decreases |at|
  {
    if at != [] {
      MergeKeepsCanon(o, at[0]);
      ReducesKeepsCanon(MergeAt(o, at[0]), d, at[1..]);
    }
  }

  lemma {:induction false} CanonKeepsLast(s: seq<Packet>)
    requires s != []
    ensures Canon(s) != [] && Canon(s)[|Canon(s)| - 1] == s[|s| - 1]
  {
    if |s| > 1 {
      CanonKeepsLast(s[1..]);
    }
  }

  predicate AddingKey(k: Key) { k.RelMouseKey? || k.ScrollKey? || k.HScrollKey? }

  lemma {:induction false} ProjectionIs(s: seq<Packet>, keys: set<Key>)
    ensures forall i :: 0 <= i < |Project(s, keys)| ==> KeyOf(Project(s, keys)[i]) in keys
  {
    if s != [] {
      ProjectionIs(s[1..], keys);
    }
  }

  /** The last sample with this key, which is the state the host ends in. */
  function LastSample(s: seq<Packet>, k: Key): Option<Packet> {
    var p := Project(s, {k});
    if p == [] then None else Some(p[|p| - 1])
  }

  /**
   * Draining the queue at any pace delivers, for any choice of one controller, pointer and sensor together with
   * mouse, pen, keys and buttons, the sequence the client sent up to runs of replaceable samples, in its order.
   */
  lemma BatchingKeepsMeaning(events: seq<Event>, keys: set<Key>)
    requires OnePerKind(keys) && (forall k :: k in keys ==> !AddingKey(k))
    requires Run(events).queue == []
    ensures Canon(Project(Run(events).received, keys)) == Canon(Project(Run(events).sent, keys))
  {
    var h := Run(events);
    var at := RunReduces(events, keys);
    assert h.sent + h.queue == h.sent;
    ProjectionIs(h.received, keys);
    ReducesKeepsCanon(Project(h.received, keys), Project(h.sent, keys), at);
  }

  /** ... and leaves the host in the state that one-by-one processing would. */
  lemma BatchingKeepsFinalState(events: seq<Event>, k: Key)
    requires !AddingKey(k) && Run(events).queue == []
    ensures LastSample(Run(events).received, k) == LastSample(Run(events).sent, k)
  {
    BatchingKeepsMeaning(events, {k});
    var o, d := Project(Run(events).received, {k}), Project(Run(events).sent, {k});
    if o != [] {
      CanonKeepsLast(o);
    }
    if d != [] {
      CanonKeepsLast(d);
    }
  }

  // ----- the packets that add up -----

  function DeltaX(p: Packet): int {
    match p
    case RelMouse(dx, _) => dx
    case Scroll(a) => a
    case HScroll(a) => a
    case _ => 0
  }

  function DeltaY(p: Packet): int {
    if p.RelMouse? then p.dy else 0
  }

  function SumX(s: seq<Packet>): int { if s == [] then 0 else DeltaX(s[0]) + SumX(s[1..]) }

  function SumY(s: seq<Packet>): int { if s == [] then 0 else DeltaY(s[0]) + SumY(s[1..]) }

  /**
   * Deltas are merged exactly when their sum does not fit, and the merged delta is then off by 2^16 on each axis that
   * moves.
   */
  lemma AddingIsMergedOnlyWhenWrong(dest: Packet, src: Packet)
    requires Adds(dest) && KeyOf(dest) == KeyOf(src)
    ensures Batch(dest, src).Batched? <==>
      !Fits(DeltaX(dest) + DeltaX(src)) && (dest.RelMouse? ==> !Fits(DeltaY(dest) + DeltaY(src)))
    ensures Batch(dest, src).Batched? ==>
      var m := Batch(dest, src).merged;
      && (DeltaX(m) - (DeltaX(dest) + DeltaX(src)) == 0x10000 || DeltaX(m) - (DeltaX(dest) + DeltaX(src)) == -0x10000)
      && (dest.RelMouse? ==>
            DeltaY(m) - (DeltaY(dest) + DeltaY(src)) == 0x10000 || DeltaY(m) - (DeltaY(dest) + DeltaY(src)) == -0x10000)
  {
  }

  /** Two large moves to the right and down become a move of two pixels to the left and up. */
  lemma LargeMovesTurnBack()
    ensures Batch(RelMouse(0x7FFF, 0x7FFF), RelMouse(0x7FFF, 0x7FFF)) == Batched(RelMouse(-2, -2))
  {
  }

  lemma {:induction false} SumsConcat(a: seq<Packet>, b: seq<Packet>)
    ensures SumX(a + b) == SumX(a) + SumX(b) && SumY(a + b) == SumY(a) + SumY(b)
  {
    if a == [] {
      assert a + b == b;
    } else {
      assert (a + b)[1..] == a[1..] + b;
      SumsConcat(a[1..], b);
    }
  }

  lemma MergeKeepsSums(s: seq<Packet>, i: nat)
    requires CanMerge(s, i)
    ensures (SumX(MergeAt(s, i)) - SumX(s)) % 0x10000 == 0 && (SumY(MergeAt(s, i)) - SumY(s)) % 0x10000 == 0
  {
    var m := Batch(s[i], s[i + 1]).merged;
    assert s == s[..i] + ([s[i], s[i + 1]] + s[i + 2..]);
    assert MergeAt(s, i) == s[..i] + ([m] + s[i + 2..]);
    SumsConcat(s[..i], [s[i], s[i + 1]] + s[i + 2..]);
    SumsConcat([s[i], s[i + 1]], s[i + 2..]);
    SumsConcat(s[..i], [m] + s[i + 2..]);
    SumsConcat([m], s[i + 2..]);
    assert SumX([s[i], s[i + 1]]) == DeltaX(s[i]) + DeltaX(s[i + 1]);
    assert SumY([s[i], s[i + 1]]) == DeltaY(s[i]) + DeltaY(s[i + 1]);
    MergedSum(s[i], s[i + 1]);
  }

  lemma MergedSum(dest: Packet, src: Packet)
    requires Batch(dest, src).Batched?
    ensures (DeltaX(Batch(dest, src).merged) - (DeltaX(dest) + DeltaX(src))) % 0x10000 == 0
    ensures (DeltaY(Batch(dest, src).merged) - (DeltaY(dest) + DeltaY(src))) % 0x10000 == 0
  {
  }

  lemma {:induction false} ReducesKeepsSums(o: seq<Packet>, d: seq<Packet>, at: seq<nat>)
    requires Reduces(o, d, at)
    ensures (SumX(d) - SumX(o)) % 0x10000 == 0 && (SumY(d) - SumY(o)) % 0x10000 == 0
    decreases |at|
  {
    if at != [] {
      var o' := MergeAt(o, at[0]);
      MergeKeepsSums(o, at[0]);
      ReducesKeepsSums(o', d, at[1..]);
      SameModulo(SumX(o), SumX(o'), SumX(d));
      SameModulo(SumY(o), SumY(o'), SumY(d));
    }
  }

  lemma SameModulo(a: int, b: int, c: int)
    requires (b - a) % 0x10000 == 0 && (c - b) % 0x10000 == 0
    ensures (c - a) % 0x10000 == 0
  {
  }

  /** Over a drained run, the total movement per adding kind is kept modulo 2^16. */
  lemma BatchingKeepsTotalsModulo(events: seq<Event>, k: Key)
    requires AddingKey(k) && Run(events).queue == []
    ensures (SumX(Project(Run(events).sent, {k})) - SumX(Project(Run(events).received, {k}))) % 0x10000 == 0
    ensures (SumY(Project(Run(events).sent, {k})) - SumY(Project(Run(events).received, {k}))) % 0x10000 == 0
  {
    var h := Run(events);
    var at := RunReduces(events, {k});
    assert h.sent + h.queue == h.sent;
    ReducesKeepsSums(Project(h.received, {k}), Project(h.sent, {k}), at);
  }

  /**
   * Horizontal or scroll deltas from -2^14 to just below 2^14 are never merged: the client's sequence arrives as it was
   * sent.
   */
  lemma SmallMovesArriveAsSent(events: seq<Event>, k: Key)
    requires AddingKey(k) && Run(events).queue == []
    requires forall p :: p in Run(events).received && KeyOf(p) == k ==> -0x4000 <= DeltaX(p) < 0x4000
    ensures Project(Run(events).sent, {k}) == Project(Run(events).received, {k})
  {
    var h := Run(events);
    var o := Project(h.received, {k});
    var at := RunReduces(events, {k});
    assert h.sent + h.queue == h.sent;
    if at != [] {
      ProjectionIs(h.received, {k});
      ProjectMembers(h.received, {k});
      var a, b := o[at[0]], o[at[0] + 1];
      assert a in o && b in o;
      AddingIsMergedOnlyWhenWrong(a, b);
      assert false;
    }
  }

  lemma {:induction false} ProjectMembers(s: seq<Packet>, keys: set<Key>)
    ensures forall p :: p in Project(s, keys) ==> p in s
  {
    if s != [] {
      ProjectMembers(s[1..], keys);
    }
  }
}
