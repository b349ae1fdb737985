/**
 * Batching and gamepad ids together, src/input.cpp: controller packets also make and free pads, so what batching must
 * keep is not only the last sample of each controller but the pads and the ids that all sessions share.
 */
module BatchedPads {
  import opened Arithmetic
  import opened Basics
  import opened InputBatching
  import Pads = GamepadIds

  type Pool = Pads.State

  /**
   * What the packets of a session meet: whether controllers are enabled, for which controller numbers the platform can
   * make a pad, and which of the other packets announce a controller, with its number.
   */
  datatype Host = Host(controller: bool, works: int -> bool, announces: (int, int) -> Option<int>)

  function Pow2(n: nat): (p: nat)
    ensures p > 0
  {
    if n == 0 then 1 else 2 * Pow2(n - 1)
  }

  /** The controller numbers whose bits are set. */
  function Active(mask: int): set<int> {
    set n | 0 <= n < Pads.MAX_GAMEPADS && (mask / Pow2(n)) % 2 == 1
  }

  /** What the handler of a packet of session `s` does to pads and ids. */
  function Handle(st: Pool, h: Host, s: nat, p: Packet): Pool {
    if s !in st.sessions || !h.controller then st
    else
      match p
      case Controller(n, mask, _, _, _) =>
        if IdFits(st, s, n) then Pads.MultiController(st, s, n, Active(mask), h.works(n)) else st
      case Other(magic, rest) =>
        var n := h.announces(magic, rest);
        if n.Some? then Pads.Arrival(st, s, n.value, h.works(n.value)) else st
      case _ => st
  }

  /** The controller number a packet is about, if it can make or free a pad. */
  function Named(h: Host, p: Packet): Option<int> {
    match p
    case Controller(n, _, _, _, _) => Some(n)
    case Other(magic, rest) => h.announces(magic, rest)
    case _ => None
  }

  /** All these packets are about controllers with numbers in `used`. */
  ghost predicate Within(h: Host, ps: seq<Packet>, used: set<int>) {
    forall p :: p in ps && Named(h, p).Some? ==> Named(h, p).value in used
  }

  /** The id in that slot, if there is one, has a bit in the mask. */
  predicate IdFits(st: Pool, s: nat, n: int) {
    Pads.Slot(st, s, n) ==> st.sessions[s][n] < |st.mask|
  }

  function HandleAll(st: Pool, h: Host, s: nat, ps: seq<Packet>): Pool
    decreases |ps|
  {
    if ps == [] then st else HandleAll(Handle(st, h, s, ps[0]), h, s, ps[1..])
  }

  lemma {:induction false} HandleConcat(st: Pool, h: Host, s: nat, a: seq<Packet>, b: seq<Packet>)
    ensures HandleAll(st, h, s, a + b) == HandleAll(HandleAll(st, h, s, a), h, s, b)
    decreases |a|
  {
    if a == [] {
      assert a + b == b;
    } else {
      assert (a + b)[1..] == a[1..] + b;
      HandleConcat(Handle(st, h, s, a[0]), h, s, a[1..], b);
    }
  }

  lemma HandleOne(st: Pool, h: Host, s: nat, p: Packet)
    ensures HandleAll(st, h, s, [p]) == Handle(st, h, s, p)
  {
    assert [p][1..] == [];
  }

  lemma HandleTwo(st: Pool, h: Host, s: nat, p: Packet, q: Packet)
    ensures HandleAll(st, h, s, [p, q]) == Handle(Handle(st, h, s, p), h, s, q)
  {
    assert [p, q][1..] == [q];
    HandleOne(Handle(st, h, s, p), h, s, q);
  }

  // ----- room for pads -----

  function FreeIds(mask: seq<bool>): (n: nat) {
    if mask == [] then 0 else (if mask[0] then 0 else 1) + FreeIds(mask[1..])
  }

  /** The slots without an id among those in `used`. */
  function EmptySlots(slots: seq<int>, used: set<int>): (n: nat) {
    if slots == [] then 0
    else
      var i := |slots| - 1;
      EmptySlots(slots[..i], used) + if slots[i] < 0 && i in used then 1 else 0
  }

  lemma {:induction false} FreeIdsUpdate(mask: seq<bool>, i: nat, b: bool)
    requires i < |mask|
    ensures FreeIds(mask[i := b]) == FreeIds(mask) + (if mask[i] then 1 else 0) - if b then 1 else 0
    decreases |mask|
  {
    if i == 0 {
      assert mask[0 := b][1..] == mask[1..];
    } else {
      assert mask[i := b][1..] == mask[1..][i - 1 := b];
      FreeIdsUpdate(mask[1..], i - 1, b);
    }
  }

  lemma {:induction false} EmptySlotsUpdate(slots: seq<int>, i: nat, id: int, used: set<int>)
    requires i < |slots| && i in used
    ensures EmptySlots(slots[i := id], used)
      == EmptySlots(slots, used) - (if slots[i] < 0 then 1 else 0) + if id < 0 then 1 else 0
    decreases |slots|
  {
    var last := |slots| - 1;
    if i == last {
      assert slots[i := id][..last] == slots[..last];
    } else {
      assert slots[i := id][..last] == slots[..last][i := id];
      EmptySlotsUpdate(slots[..last], i, id, used);
    }
  }

  lemma {:induction false} SomeFree(mask: seq<bool>, x: nat)
    requires x <= |mask|
    ensures FreeIds(mask[x..]) > 0 <==> Pads.FirstFree(mask, x) < |mask|
    decreases |mask| - x
  {
    if x < |mask| {
      assert mask[x..][1..] == mask[x + 1..];
      SomeFree(mask, x + 1);
    }
  }

  lemma {:induction false} SomeEmpty(slots: seq<int>, n: nat, used: set<int>)
    requires n < |slots| && slots[n] < 0 && n in used
    ensures EmptySlots(slots, used) > 0
    decreases |slots|
  {
    if n < |slots| - 1 {
      SomeEmpty(slots[..|slots| - 1], n, used);
    }
  }

  /** The session's ids are ids, and there is a free one for each of its empty slots among those in `used`. */
  ghost predicate Room(st: Pool, s: nat, used: set<int>) {
    Sound(st, s) && EmptySlots(st.sessions[s], used) <= FreeIds(st.mask)
  }

  /** What of the invariant of the ids is needed here: a slot of the session has no id, or one whose bit is set. */
  ghost predicate Sound(st: Pool, s: nat) {
    && s in st.sessions && |st.sessions[s]| == Pads.MAX_GAMEPADS
    && (forall n :: 0 <= n < |st.sessions[s]| && st.sessions[s][n] >= 0 ==>
          st.sessions[s][n] < |st.mask| && st.mask[st.sessions[s][n]])
    && (forall m, n :: 0 <= m < n < |st.sessions[s]| && st.sessions[s][m] >= 0 ==>
      st.sessions[s][m] != st.sessions[s][n])
  }

  lemma InvIsSound(st: Pool, s: nat)
    requires Pads.Inv(st) && s in st.sessions
    ensures Sound(st, s)
  {
    Pads.SlotsDiffer(st, s);
    forall n | 0 <= n < |st.sessions[s]| && st.sessions[s][n] >= 0
      ensures st.sessions[s][n] < |st.mask| && st.mask[st.sessions[s][n]]
    {
      assert Pads.Owns(st, Pads.InSlot(s, n), st.sessions[s][n]);
      assert Pads.Owned(st, st.sessions[s][n]);
    }
  }

  /** How many more ids are free than those slots need; negative if they do not suffice. */
  function Spare(st: Pool, s: nat, used: set<int>): int
    requires s in st.sessions
  {
    FreeIds(st.mask) - EmptySlots(st.sessions[s], used)
  }

  lemma AllocateKeepsSpare(st: Pool, s: nat, n: nat, ok: bool, used: set<int>)
    requires Sound(st, s) && Pads.Slot(st, s, n) && st.sessions[s][n] < 0 && n in used
    ensures var st' := Pads.Allocate(st, s, n, ok);
      && Sound(st', s) && Spare(st', s, used) == Spare(st, s, used)
      && (forall m :: 0 <= m < |st.sessions[s]| && m != n ==> st'.sessions[s][m] == st.sessions[s][m])
      && (st' == st || st'.sessions[s][n] >= 0)
  {
    var id := Pads.FirstFree(st.mask, 0);
    if id < |st.mask| && ok {
      FreeIdsUpdate(st.mask, id, true);
      EmptySlotsUpdate(st.sessions[s], n, id, used);
    }
  }

  lemma ReleaseKeepsSpare(st: Pool, s: nat, n: nat, used: set<int>)
    requires Sound(st, s) && Pads.Slot(st, s, n) && st.sessions[s][n] >= 0 && n in used
    ensures var st' := Pads.Release(st, st.sessions[s][n]).(sessions := st.sessions[s := st.sessions[s][n := -1]]);
      && Sound(st', s) && Spare(st', s, used) == Spare(st, s, used)
  {
    FreeIdsUpdate(st.mask, st.sessions[s][n], false);
    EmptySlotsUpdate(st.sessions[s], n, -1, used);
  }

  /** No packet about those controllers changes that. */
  lemma HandleKeepsSpare(st: Pool, h: Host, s: nat, p: Packet, used: set<int>)
    requires Sound(st, s) && Within(h, [p], used)
    ensures Sound(Handle(st, h, s, p), s) && Spare(Handle(st, h, s, p), s, used) == Spare(st, s, used)
  {
    var number := Named(h, p);
    assert p in [p];
    if h.controller && number.Some? && Pads.Slot(st, s, number.value) {
      var n := number.value;
      if st.sessions[s][n] < 0 {
        AllocateKeepsSpare(st, s, n, h.works(n), used);
      } else {
        ReleaseKeepsSpare(st, s, n, used);
      }
    }
  }

  // ----- one take from the queue -----

  /** The packet has nothing more to do. */
  ghost predicate Settled(st: Pool, h: Host, s: nat, p: Packet) {
    Handle(st, h, s, p) == st
  }

  /** Where there is room, a controller packet is settled exactly if its slot is as its mask says, or cannot be. */
  lemma SettledIs(st: Pool, h: Host, s: nat, p: Packet, used: set<int>)
    requires Room(st, s, used) && p.Controller? && p.number in used
    ensures Settled(st, h, s, p) <==>
      !h.controller || !Pads.Slot(st, s, p.number)
      || (if p.number in Active(p.activeMask) then st.sessions[s][p.number] >= 0 || !h.works(p.number)
          else st.sessions[s][p.number] < 0)
  {
    if h.controller && Pads.Slot(st, s, p.number) {
      var n := p.number;
      if n in Active(p.activeMask) && st.sessions[s][n] < 0 {
        SomeEmpty(st.sessions[s], n, used);
        assert st.mask[0..] == st.mask;
        SomeFree(st.mask, 0);
      }
    }
  }

  lemma HandleSettles(st: Pool, h: Host, s: nat, p: Packet, used: set<int>)
    requires Room(st, s, used) && p.Controller? && p.number in used
    ensures Settled(Handle(st, h, s, p), h, s, p)
  {
    HandleKeepsSpare(st, h, s, p, used);
    SettledIs(Handle(st, h, s, p), h, s, p, used);
    SettledIs(st, h, s, p, used);
  }

  /** A packet of another controller with the same mask leaves it settled. */
  lemma OthersKeepSettled(st: Pool, h: Host, s: nat, p: Packet, q: Packet, used: set<int>)
    requires Room(st, s, used) && p.Controller? && q.Controller? && p.number != q.number && Settled(st, h, s, p)
    requires p.number in used && q.number in used
    ensures Settled(Handle(st, h, s, q), h, s, p)
  {
    HandleKeepsSpare(st, h, s, q, used);
    SettledIs(st, h, s, p, used);
    SettledIs(Handle(st, h, s, q), h, s, p, used);
  }

  lemma RoomStays(st: Pool, h: Host, s: nat, p: Packet, used: set<int>)
    requires Room(st, s, used) && Within(h, [p], used)
    ensures Room(Handle(st, h, s, p), s, used)
  {
    HandleKeepsSpare(st, h, s, p, used);
  }

  lemma {:induction false} RoomStaysAll(st: Pool, h: Host, s: nat, ps: seq<Packet>, used: set<int>)
    requires Room(st, s, used) && Within(h, ps, used)
    ensures Room(HandleAll(st, h, s, ps), s, used)
    decreases |ps|
  {
    if ps != [] {
      RoomStays(st, h, s, ps[0], used);
      RoomStaysAll(Handle(st, h, s, ps[0]), h, s, ps[1..], used);
    }
  }

  /** Merged packets do what each of them does. */
  lemma MergedDoesTheSame(st: Pool, h: Host, s: nat, dest: Packet, src: Packet)
    requires Batch(dest, src).Batched?
    ensures Handle(st, h, s, src) == Handle(st, h, s, dest) == Handle(st, h, s, Batch(dest, src).merged)
  {
  }

  lemma {:induction false} ScanDoesTheSame(st: Pool, h: Host, s: nat, dest: Packet, rest: seq<Packet>)
    ensures Handle(st, h, s, Scan(dest, rest).0) == Handle(st, h, s, dest)
    decreases |rest|
  {
    if rest != [] {
      match Batch(dest, rest[0]) {
        case Terminate =>
        case Batched(merged) =>
          MergedDoesTheSame(st, h, s, dest, rest[0]);
          ScanDoesTheSame(st, h, s, merged, rest[1..]);
        case NotBatchable => ScanDoesTheSame(st, h, s, dest, rest[1..]);
      }
    }
  }

  lemma PassedOverKeepsSettled(st: Pool, h: Host, s: nat, dest: Packet, src: Packet, used: set<int>)
    requires Room(st, s, used) && Settled(st, h, s, dest) && Batch(dest, src).NotBatchable?
    requires Within(h, [dest, src], used)
    ensures Settled(Handle(st, h, s, src), h, s, dest)
  {
    if dest.Controller? {
      assert dest in [dest, src] && src in [dest, src];
      OthersKeepSettled(st, h, s, dest, src, used);
    }
  }

  /** Behind a packet that is settled, the packets that a take merges into it make no difference. */
  lemma {:induction false} ScanKeepsPads(st: Pool, h: Host, s: nat, dest: Packet, rest: seq<Packet>, used: set<int>)
    requires Room(st, s, used) && Settled(st, h, s, dest) && Within(h, [dest], used) && Within(h, rest, used)
    ensures HandleAll(st, h, s, Scan(dest, rest).1) == HandleAll(st, h, s, rest)
    decreases |rest|
  {
    if rest != [] {
      match Batch(dest, rest[0]) {
        case Terminate =>
        case Batched(merged) =>
          MergedDoesTheSame(st, h, s, dest, rest[0]);
          ScanKeepsPads(st, h, s, merged, rest[1..], used);
        case NotBatchable =>
          var kept := Scan(dest, rest[1..]).1;
          assert dest in [dest];
          PassedOver(st, h, s, dest, rest[0], used);
          ScanKeepsPads(Handle(st, h, s, rest[0]), h, s, dest, rest[1..], used);
          assert ([rest[0]] + kept)[1..] == kept;
      }
    }
  }

  lemma PassedOver(st: Pool, h: Host, s: nat, dest: Packet, src: Packet, used: set<int>)
    requires Room(st, s, used) && Settled(st, h, s, dest) && Batch(dest, src).NotBatchable?
    requires Within(h, [dest, src], used)
    ensures Room(Handle(st, h, s, src), s, used) && Settled(Handle(st, h, s, src), h, s, dest)
  {
    assert src in [dest, src];
    RoomStays(st, h, s, src, used);
    PassedOverKeepsSettled(st, h, s, dest, src, used);
  }

  lemma TakeKeepsPads(st: Pool, h: Host, s: nat, queue: seq<Packet>, used: set<int>)
    requires Room(st, s, used) && queue != [] && Within(h, queue, used)
    ensures var (d, r) := Scan(queue[0], queue[1..]);
      HandleAll(st, h, s, [d] + r) == HandleAll(st, h, s, queue)
  {
    var (d, r) := Scan(queue[0], queue[1..]);
    assert ([d] + r)[1..] == r;
    assert Within(h, [queue[0]], used) && Within(h, queue[1..], used);
    ScanDoesTheSame(st, h, s, queue[0], queue[1..]);
    if queue[0].Other? {
      OtherIsAlone(queue[0], queue[1..]);
    } else {
      RoomStays(st, h, s, queue[0], used);
      assert queue[0] in queue;
      if queue[0].Controller? {
        HandleSettles(st, h, s, queue[0], used);
      }
      ScanKeepsPads(Handle(st, h, s, queue[0]), h, s, queue[0], queue[1..], used);
    }
  }

  lemma OtherIsAlone(dest: Packet, rest: seq<Packet>)
    requires dest.Other?
    ensures Scan(dest, rest) == (dest, rest)
  {
  }

  // ----- runs -----

  lemma {:induction false} ScanMembers(h: Host, dest: Packet, rest: seq<Packet>)
    ensures Named(h, Scan(dest, rest).0) == Named(h, dest)
    ensures forall p :: p in Scan(dest, rest).1 ==> p in rest
    decreases |rest|
  {
    if rest != [] {
      match Batch(dest, rest[0]) {
        case Terminate =>
        case Batched(merged) => ScanMembers(h, merged, rest[1..]);
        case NotBatchable => ScanMembers(h, dest, rest[1..]);
      }
    }
  }

  /** What is sent and queued is about the same controllers as what was received. */
  lemma {:induction false} RunWithin(h: Host, events: seq<Event>, used: set<int>)
    requires Within(h, Run(events).received, used)
    ensures Within(h, Run(events).sent, used) && Within(h, Run(events).queue, used)
    decreases |events|
  {
    if events != [] {
      var r := Run(events[..|events| - 1]);
      assert forall p :: p in r.received ==> p in Run(events).received;
      RunWithin(h, events[..|events| - 1], used);
      if events[|events| - 1].Process? && r.queue != [] {
        ScanMembers(h, r.queue[0], r.queue[1..]);
      }
    }
  }

  lemma {:induction false} RunKeepsPads(st: Pool, h: Host, s: nat, events: seq<Event>, used: set<int>)
    requires Room(st, s, used) && Within(h, Run(events).received, used)
    ensures HandleAll(st, h, s, Run(events).sent + Run(events).queue) == HandleAll(st, h, s, Run(events).received)
    decreases |events|
  {
    if events != [] {
      var e, r := events[|events| - 1], Run(events[..|events| - 1]);
      assert forall p :: p in r.received ==> p in Run(events).received;
      RunKeepsPads(st, h, s, events[..|events| - 1], used);
      if e.Arrive? {
        ArrivalBehind(st, h, s, r, e.p);
      } else if r.queue != [] {
        RunWithin(h, events[..|events| - 1], used);
        TakeKeepsPadsBehind(st, h, s, r, used);
      }
    }
  }

  lemma ArrivalBehind(st: Pool, h: Host, s: nat, r: History, p: Packet)
    requires HandleAll(st, h, s, r.sent + r.queue) == HandleAll(st, h, s, r.received)
    ensures var t := Step(r, Arrive(p)); HandleAll(st, h, s, t.sent + t.queue) == HandleAll(st, h, s, t.received)
  {
    HandleConcat(st, h, s, r.sent + r.queue, [p]);
    HandleConcat(st, h, s, r.received, [p]);
    assert r.sent + (r.queue + [p]) == r.sent + r.queue + [p];
  }

  lemma TakeKeepsPadsBehind(st: Pool, h: Host, s: nat, r: History, used: set<int>)
    requires Room(st, s, used) && r.queue != [] && Within(h, r.sent, used) && Within(h, r.queue, used)
    ensures var t := Step(r, Process); HandleAll(st, h, s, t.sent + t.queue) == HandleAll(st, h, s, r.sent + r.queue)
  {
    var (d, rest) := Scan(r.queue[0], r.queue[1..]);
    RoomStaysAll(st, h, s, r.sent, used);
    TakeKeepsPads(HandleAll(st, h, s, r.sent), h, s, r.queue, used);
    HandleConcat(st, h, s, r.sent, r.queue);
    HandleConcat(st, h, s, r.sent, [d] + rest);
    assert (r.sent + [d]) + rest == r.sent + ([d] + rest);
  }

  /**
   * With a free id for every empty slot that the client uses, draining its queue at any pace leaves the pads, the ids
   * and all slots as handling each packet on its own does.
   */
  lemma BatchingKeepsPads(st: Pool, h: Host, s: nat, events: seq<Event>, used: set<int>)
    requires Room(st, s, used) && Within(h, Run(events).received, used) && Run(events).queue == []
    ensures HandleAll(st, h, s, Run(events).sent) == HandleAll(st, h, s, Run(events).received)
  {
    RunKeepsPads(st, h, s, events, used);
    assert Run(events).sent + Run(events).queue == Run(events).sent;
  }

  // ----- when there is no room -----

  /** No id is free and the client's slots have none: whatever it sends about them, nothing happens. */
  ghost predicate Starved(st: Pool, s: nat, used: set<int>) {
    && Sound(st, s) && FreeIds(st.mask) == 0
    && forall n :: 0 <= n < |st.sessions[s]| && n in used ==> st.sessions[s][n] < 0
  }

  lemma StarvedStays(st: Pool, h: Host, s: nat, p: Packet, used: set<int>)
    requires Starved(st, s, used) && Within(h, [p], used)
    ensures Handle(st, h, s, p) == st
  {
    assert p in [p];
    assert st.mask[0..] == st.mask;
    SomeFree(st.mask, 0);
  }

  lemma {:induction false} StarvedStaysAll(st: Pool, h: Host, s: nat, ps: seq<Packet>, used: set<int>)
    requires Starved(st, s, used) && Within(h, ps, used)
    ensures HandleAll(st, h, s, ps) == st
    decreases |ps|
  {
    if ps != [] {
      StarvedStays(st, h, s, ps[0], used);
      StarvedStaysAll(st, h, s, ps[1..], used);
    }
  }

  /** Controllers are enabled, and the platform can make every pad. */
  ghost predicate Willing(h: Host) {
    h.controller && forall n :: h.works(n)
  }

  lemma {:induction false} EmptyOne(slots: seq<int>, used: set<int>) returns (n: nat)
    requires EmptySlots(slots, used) > 0
    ensures n < |slots| && slots[n] < 0 && n in used
    decreases |slots|
  {
    n := |slots| - 1;
    if slots[n] >= 0 || n !in used {
      n := EmptyOne(slots[..n], used);
    }
  }

  lemma {:induction false} Pow2Sum(a: nat, b: nat)
    ensures Pow2(a + b) == Pow2(a) * Pow2(b)
    decreases a
  {
    if a > 0 {
      Pow2Sum(a - 1, b);
      MulDist(Pow2(a - 1), Pow2(a - 1), Pow2(b));
    }
  }

  lemma OneBit(e: nat, n: nat)
    ensures (Pow2(e) / Pow2(n)) % 2 == 1 <==> n == e
  {
    if n <= e {
      LowerBit(e - n, n);
    } else {
      HigherBit(e, n - e - 1);
    }
  }

  lemma LowerBit(d: nat, n: nat)
    ensures (Pow2(d + n) / Pow2(n)) % 2 == 1 <==> d == 0
  {
    Pow2Sum(d, n);
    DivModIs(Pow2(d + n), Pow2(n), Pow2(d), 0);
    if d > 0 {
      DivModIs(Pow2(d), 2, Pow2(d - 1), 0);
    }
  }

  lemma HigherBit(e: nat, d: nat)
    ensures Pow2(e) / Pow2(e + d + 1) == 0
  {
    Pow2Sum(d + 1, e);
    MulMono(2, Pow2(d + 1), Pow2(e));
    DivModIs(Pow2(e), Pow2(e + d + 1), 0, Pow2(e));
  }

  /** The client's packet for controller `n`, when `e` is the only active one. */
  function Says(n: nat, e: nat): Packet {
    Controller(n, Pow2(e), 0, 0, 0)
  }

  lemma OnlyActive(e: nat)
    requires e < Pads.MAX_GAMEPADS
    ensures Active(Pow2(e)) == {e}
  {
    forall n: nat | n < Pads.MAX_GAMEPADS
      ensures (Pow2(e) / Pow2(n)) % 2 == 1 <==> n == e
    {
      OneBit(e, n);
    }
  }

  // ----- pieces of runs -----

  lemma RunMore(events: seq<Event>, e: Event)
    ensures Run(events + [e]) == Step(Run(events), e)
  {
    assert (events + [e])[..|events|] == events;
  }

  lemma {:induction false} RunBehind(before: seq<Event>, events: seq<Event>)
    requires Run(before).queue == []
    ensures var a, b := Run(before), Run(events);
      Run(before + events) == History(b.queue, a.received + b.received, a.sent + b.sent)
    decreases |events|
  {
    if events == [] {
      assert before + events == before;
    } else {
      var less, e := events[..|events| - 1], events[|events| - 1];
      RunBehind(before, less);
      RunMore(before + less, e);
      assert before + less + [e] == before + events;
      StepBehind(Run(before), Run(less), e);
    }
  }

  lemma StepBehind(a: History, b: History, e: Event)
    ensures var c, d := Step(History(b.queue, a.received + b.received, a.sent + b.sent), e), Step(b, e);
      c == History(d.queue, a.received + d.received, a.sent + d.sent)
  {
  }

  lemma OneTaken(a: Packet) returns (events: seq<Event>)
    ensures Run(events) == History([], [a], [a])
  {
    RunMore([], Arrive(a));
    RunMore([Arrive(a)], Process);
    assert [] + [Arrive(a)] == [Arrive(a)];
    events := [Arrive(a)] + [Process];
  }

  /** The third packet is merged into the first, over the second. */
  lemma ThirdMerged(a: Packet, b: Packet) returns (events: seq<Event>)
    requires Batch(a, b).NotBatchable? && Batch(a, a) == Batched(a)
    ensures Run(events) == History([], [a, b, a], [a, b])
  {
    var e1, e2 := [Arrive(a)], [Arrive(a), Arrive(b)];
    var e3 := e2 + [Arrive(a)];
    RunMore([], Arrive(a));
    RunMore(e1, Arrive(b));
    RunMore(e2, Arrive(a));
    RunMore(e3, Process);
    RunMore(e3 + [Process], Process);
    assert [] + [Arrive(a)] == e1 && e1 + [Arrive(b)] == e2;
    assert Run(e3).queue == [a, b, a];
    assert [a, b, a][1..] == [b, a] && [b, a][1..] == [a];
    ScanThree(a, b);
    events := e3 + [Process] + [Process];
  }

  lemma ScanThree(a: Packet, b: Packet)
    requires Batch(a, b).NotBatchable? && Batch(a, a) == Batched(a)
    ensures Scan(a, [b, a]) == (a, [b]) && Scan(b, []) == (b, [])
  {
    assert [b, a][1..] == [a] && [a][1..] == [];
    assert Scan(a, [a]) == (a, []);
    assert [b] + [] == [b];
  }

  // ----- the pad that is lost -----

  /** All ids taken, one of them by slot `m`, and slot `e` empty: that `m` goes comes too late for the merged packet. */
  lemma FullAndMerged(st: Pool, h: Host, s: nat, e: nat, m: nat)
    requires Sound(st, s) && Willing(h) && FreeIds(st.mask) == 0
    requires e < |st.sessions[s]| && m < |st.sessions[s]| && st.sessions[s][e] < 0 <= st.sessions[s][m]
    ensures var a, b := Says(e, e), Says(m, e);
      HandleAll(st, h, s, [a, b, a]) != HandleAll(st, h, s, [a, b])
  {
    var a, b := Says(e, e), Says(m, e);
    TooLate(st, h, s, e, m);
    var st1 := Handle(st, h, s, b);
    HandleTwo(st, h, s, a, b);
    HandleConcat(st, h, s, [a, b], [a]);
    assert [a, b] + [a] == [a, b, a];
    HandleOne(st1, h, s, a);
  }

  lemma TooLate(st: Pool, h: Host, s: nat, e: nat, m: nat)
    requires Sound(st, s) && Willing(h) && FreeIds(st.mask) == 0
    requires e < |st.sessions[s]| && m < |st.sessions[s]| && st.sessions[s][e] < 0 <= st.sessions[s][m]
    ensures Handle(st, h, s, Says(e, e)) == st
    ensures var st1 := Handle(st, h, s, Says(m, e));
      s in st1.sessions && |st1.sessions[s]| == |st.sessions[s]| && st1.sessions[s][e] < 0
        && Handle(st1, h, s, Says(e, e)) != st1
  {
    OnlyActive(e);
    assert st.mask[0..] == st.mask;
    SomeFree(st.mask, 0);
    var st1 := Handle(st, h, s, Says(m, e));
    ReleaseKeepsSpare(st, s, m, {m as int});
    FreeIdsUpdate(st.mask, st.sessions[s][m], false);
    assert st1.mask == st.mask[st.sessions[s][m] := false];
    assert st1.mask[0..] == st1.mask;
    SomeFree(st1.mask, 0);
    assert Handle(st1, h, s, Says(e, e)).sessions[s][e] >= 0;
  }

  lemma {:induction false} LosesPad(st: Pool, h: Host, s: nat, used: set<int>) returns (events: seq<Event>)
    requires Sound(st, s) && Willing(h) && Spare(st, s, used) < 0 && !Starved(st, s, used)
    ensures Run(events).queue == [] && Within(h, Run(events).received, used)
    ensures HandleAll(st, h, s, Run(events).sent) != HandleAll(st, h, s, Run(events).received)
    decreases FreeIds(st.mask)
  {
    var e := EmptyOne(st.sessions[s], used);
    if FreeIds(st.mask) == 0 {
      var m :| 0 <= m < |st.sessions[s]| && m in used && st.sessions[s][m] >= 0;
      events := ThirdMerged(Says(e, e), Says(m, e));
      FullAndMerged(st, h, s, e, m);
    } else {
      FillsOne(st, h, s, e, used);
      var first := OneTaken(Says(e, e));
      var more := LosesPad(Handle(st, h, s, Says(e, e)), h, s, used);
      RunBehind(first, more);
      HandleConcat(st, h, s, [Says(e, e)], Run(more).sent);
      HandleConcat(st, h, s, [Says(e, e)], Run(more).received);
      events := first + more;
    }
  }

  lemma FillsOne(st: Pool, h: Host, s: nat, e: nat, used: set<int>)
    requires Sound(st, s) && Willing(h) && FreeIds(st.mask) > 0
    requires e < |st.sessions[s]| && st.sessions[s][e] < 0 && e in used
    ensures var st1 := Handle(st, h, s, Says(e, e));
      && Sound(st1, s) && Spare(st1, s, used) == Spare(st, s, used) && st1.sessions[s][e] >= 0
      && FreeIds(st1.mask) == FreeIds(st.mask) - 1
      && HandleAll(st, h, s, [Says(e, e)]) == st1
  {
    OnlyActive(e);
    HandleKeepsSpare(st, h, s, Says(e, e), used);
    assert st.mask[0..] == st.mask;
    SomeFree(st.mask, 0);
    FreeIdsUpdate(st.mask, Pads.FirstFree(st.mask, 0), true);
    HandleOne(st, h, s, Says(e, e));
  }

  /** For this client the order of packets and their merging make no difference. */
  ghost predicate SafeToBatch(st: Pool, h: Host, s: nat, used: set<int>) {
    forall events :: Run(events).queue == [] && Within(h, Run(events).received, used) ==>
      HandleAll(st, h, s, Run(events).sent) == HandleAll(st, h, s, Run(events).received)
  }

  /**
   * For a host that makes every pad, batching never changes pads or ids, whatever the client sends about these
   * controllers and however fast its queue is drained, if and only if there is a free id for each of them that has
   * none, or no free id at all and none in their slots.
   */
  lemma BatchingKeepsPadsExactly(st: Pool, h: Host, s: nat, used: set<int>)
    requires Pads.Inv(st) && s in st.sessions && Willing(h)
    ensures SafeToBatch(st, h, s, used) <==> Room(st, s, used) || Starved(st, s, used)
  {
    InvIsSound(st, s);
    if Room(st, s, used) || Starved(st, s, used) {
      forall events | Run(events).queue == [] && Within(h, Run(events).received, used)
        ensures HandleAll(st, h, s, Run(events).sent) == HandleAll(st, h, s, Run(events).received)
      {
        if Room(st, s, used) {
          BatchingKeepsPads(st, h, s, events, used);
        } else {
          RunWithin(h, events, used);
          StarvedStaysAll(st, h, s, Run(events).sent, used);
          StarvedStaysAll(st, h, s, Run(events).received, used);
        }
      }
    } else {
      var events := LosesPad(st, h, s, used);
    }
  }

  // ----- a session alone -----

  lemma {:induction false} AllFree(mask: seq<bool>)
    requires forall i :: 0 <= i < |mask| ==> !mask[i]
    ensures FreeIds(mask) == |mask|
    decreases |mask|
  {
    if mask != [] {
      AllFree(mask[1..]);
    }
  }

  /** If every bit that is set is the id of some slot, no more bits are set than slots are taken. */
  lemma {:induction false} BitsAreSlots(mask: seq<bool>, slots: seq<int>, used: set<int>)
    requires forall id: nat :: id < |mask| && mask[id] ==> id in slots
    ensures |mask| - FreeIds(mask) <= |slots| - EmptySlots(slots, used)
    decreases |slots|
  {
    if slots == [] {
      AllFree(mask);
    } else {
      var front, id := slots[..|slots| - 1], slots[|slots| - 1];
      if 0 <= id < |mask| {
        FreeIdsUpdate(mask, id, false);
        BitsAreSlots(mask[id := false], front, used);
      } else {
        BitsAreSlots(mask, front, used);
      }
    }
  }

  /** So one client alone, with all tasks done, is never affected. */
  lemma AloneHasRoom(st: Pool, s: nat, used: set<int>)
    requires Pads.Inv(st) && st.sessions.Keys == {s} && st.queued == []
    ensures Room(st, s, used)
  {
    InvIsSound(st, s);
    forall id: nat | id < |st.mask| && st.mask[id]
      ensures id in st.sessions[s]
    {
      assert Pads.Owned(st, id);
      var o :| Pads.Owns(st, o, id);
      assert o.session in st.sessions.Keys;
    }
    BitsAreSlots(st.mask, st.sessions[s], used);
  }
}
