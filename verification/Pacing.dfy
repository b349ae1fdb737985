/**
 * The pacing of packets in videoBroadcastThread of src/stream.cpp, over whole runs of frames with one block size.
 * Times are in nanoseconds.
 */
module Pacing {
  import opened Arithmetic

  const NS_PER_MS := 1_000_000

  /** ratecontrol_packets_in_1ms: around 80% of 1Gbps. */
  function PacketsPerMs(bs: nat): nat
    requires bs > 0
  {
    1_000_000_000 * 80 / 100 / 1000 / bs / 8
  }

  /** The code divides by this rate: it is positive for block sizes up to 100000. */
  lemma RateIsPositive(bs: nat)
    requires bs > 0
    ensures PacketsPerMs(bs) >= 1 <==> bs <= 100_000
  {
    var q := 800_000 / bs;
    DivLess(800_000, bs, 8);
    DivLess(q, 8, 1);
  }

  const BITS_PER_SECOND := 1_000_000_000

  /**
   * The rate is the greatest number of packets of `bs` bytes a millisecond that stays within 80 percent of a gigabit a
   * second.
   */
  lemma RateIsMost(bs: nat, n: nat)
    requires bs > 0
    ensures n <= PacketsPerMs(bs) <==> 100 * (1000 * (8 * (n * bs))) <= 80 * BITS_PER_SECOND
  {
    var q := 800_000 / bs;
    DivLess(q, 8, n);
    DivLess(q + 1, 8, n);
    assert n <= q / 8 <==> n * 8 <= q by {
      DivModDef(q, 8);
    }
    MostTimes(800_000, bs, n * 8);
  }

  /** A quotient is the greatest number whose product fits. */
  lemma MostTimes(n: nat, p: nat, k: nat)
    requires p > 0
    ensures k <= n / p <==> k * p <= n
  {
    DivLess(n, p, k);
  }

  /** send_batch_size */
  function BatchLimit(bs: nat): (n: nat)
    requires bs > 0
    ensures n <= 64 && n * bs <= 0x1_0000
  {
    var most := 64 * 1024 / bs;
    DivModDef(64 * 1024, bs);
    if 64 <= most then MulMono(64, most, bs); 64 else most
  }

  /** As many as fit into 64K, up to 64. */
  lemma BatchLimitIsMost(bs: nat, n: nat)
    requires bs > 0
    ensures n <= BatchLimit(bs) <==> n <= 64 && n * bs <= 0x1_0000
  {
    MostTimes(64 * 1024, bs, n);
    MostTimes(64 * 1024, bs, 64);
    if n <= 64 {
      MulMono(n, 64, bs);
    }
  }

  /** A limit of zero, for blocks above 64K, still sends one shard at a time. */
  function BatchSize(bs: nat): (n: nat)
    requires bs > 0
    ensures 1 <= n <= 64
  {
    if BatchLimit(bs) == 0 then 1 else BatchLimit(bs)
  }

  // ----- what was sent when -----

  datatype Batch = Batch(at: nat, offset: nat, count: nat)
  datatype Frame = Frame(start: nat, batches: seq<Batch>)

  function Count(batches: seq<Batch>): nat {
    if batches == [] then 0 else Count(batches[..|batches| - 1]) + batches[|batches| - 1].count
  }

  /** The packets of these batches that had left by time `t`. */
  function SentBy(batches: seq<Batch>, t: nat): nat {
    if batches == [] then 0
    else
      var last := batches[|batches| - 1];
      SentBy(batches[..|batches| - 1], t) + if last.at <= t then last.count else 0
  }

  function SentByAll(frames: seq<Frame>, t: nat): nat {
    if frames == [] then 0 else SentBy(frames[0].batches, t) + SentByAll(frames[1..], t)
  }

  /** How many of these frames had started by time `t`. */
  function Started(frames: seq<Frame>, t: nat): nat {
    if frames == [] then 0 else (if frames[0].start <= t then 1 else 0) + Started(frames[1..], t)
  }

  /** How far `n` packets may be ahead of the rate `elapsed` nanoseconds after their frame started. */
  ghost predicate WithinBudget(n: nat, elapsed: int, rate: nat, batch: nat) {
    NS_PER_MS * n <= elapsed * rate + (rate - 1) + NS_PER_MS * (rate - 1 + batch)
  }

  /** Every batch of the frame left after its start, and not before its time. */
  ghost predicate FramePaced(f: Frame, rate: nat, batch: nat) {
    forall i :: 0 <= i < |f.batches| ==> BatchPaced(f, i, rate, batch)
  }

  ghost predicate BatchPaced(f: Frame, i: nat, rate: nat, batch: nat)
    requires i < |f.batches|
  {
    f.start <= f.batches[i].at && WithinBudget(Count(f.batches[..i + 1]), f.batches[i].at - f.start, rate, batch)
  }

  /** Whether a batch is paced does not depend on the batches behind it. */
  lemma LaterBatches(f: Frame, g: Frame, i: nat, rate: nat, batch: nat)
    requires f.start == g.start && i < |f.batches| && i < |g.batches| && f.batches[..i + 1] == g.batches[..i + 1]
    ensures BatchPaced(f, i, rate, batch) == BatchPaced(g, i, rate, batch)
  {
    assert f.batches[i] == f.batches[..i + 1][i] && g.batches[i] == g.batches[..i + 1][i];
  }

  /** The next frame does not start before the packets of this one are due. */
  ghost predicate Follows(f: Frame, g: Frame, rate: nat) {
    f.start <= g.start && NS_PER_MS * Count(f.batches) <= (g.start - f.start) * rate + (rate - 1)
  }

  ghost predicate Paced(frames: seq<Frame>, rate: nat, batch: nat) {
    && (forall k :: 0 <= k < |frames| ==> FramePaced(frames[k], rate, batch))
    && (forall k :: 0 < k < |frames| ==> Follows(frames[k - 1], frames[k], rate))
  }

  lemma {:induction false} SentByIsCounted(batches: seq<Batch>, t: nat)
    ensures SentBy(batches, t) <= Count(batches)
  {
    if batches != [] {
      SentByIsCounted(batches[..|batches| - 1], t);
    }
  }

  lemma PrefixPaced(f: Frame, rate: nat, batch: nat)
    requires f.batches != [] && FramePaced(f, rate, batch)
    ensures FramePaced(f.(batches := f.batches[..|f.batches| - 1]), rate, batch)
  {
    var g := f.(batches := f.batches[..|f.batches| - 1]);
    forall i | 0 <= i < |g.batches|
      ensures BatchPaced(g, i, rate, batch)
    {
      assert g.batches[..i + 1] == f.batches[..i + 1];
      LaterBatches(f, g, i, rate, batch);
    }
  }

  lemma {:induction false} OneFrame(f: Frame, rate: nat, batch: nat, t: nat)
    requires FramePaced(f, rate, batch) && rate >= 1
    ensures t < f.start ==> SentBy(f.batches, t) == 0
    ensures f.start <= t ==> WithinBudget(SentBy(f.batches, t), t - f.start, rate, batch)
    decreases |f.batches|
  {
    if f.batches == [] {
      MulNonNeg(if f.start <= t then t - f.start else 0, rate);
    } else {
      var last := |f.batches| - 1;
      var b := f.batches[last];
      PrefixPaced(f, rate, batch);
      OneFrame(f.(batches := f.batches[..last]), rate, batch, t);
      if b.at <= t {
        assert f.batches[..last + 1] == f.batches && BatchPaced(f, last, rate, batch);
        SentByIsCounted(f.batches, t);
        MulMono(b.at - f.start, t - f.start, rate);
      }
    }
  }

  /**
   * The leaky bucket: in the time from the start of a frame to `t` no more packets leave, over any number of frames,
   * than the rate allows, plus one rate's worth, one batch, and a nanosecond of rounding for each frame.
   */
  lemma {:induction false} LeakyBucket(frames: seq<Frame>, rate: nat, batch: nat, t: nat)
    requires Paced(frames, rate, batch) && rate >= 1 && frames != [] && frames[0].start <= t
    ensures NS_PER_MS * SentByAll(frames, t)
         <= (t - frames[0].start) * rate + Started(frames, t) * (rate - 1) + NS_PER_MS * (rate - 1 + batch)
  {
    var f, rest := frames[0], frames[1..];
    OneFrame(f, rate, batch, t);
    RestPaced(frames, rate, batch);
    if rest == [] || t < rest[0].start {
      NotYetStarted(rest, rate, batch, t);
      assert Started(frames, t) == 1;
    } else {
      LeakyBucket(rest, rate, batch, t);
      assert Follows(frames[0], frames[1], rate);
      SentByIsCounted(f.batches, t);
      MulDist(rest[0].start - f.start, t - rest[0].start, rate);
      MulDist(1, Started(rest, t), rate - 1);
    }
  }

  lemma RestPaced(frames: seq<Frame>, rate: nat, batch: nat)
    requires frames != [] && Paced(frames, rate, batch)
    ensures Paced(frames[1..], rate, batch)
  {
    var rest := frames[1..];
    forall k | 0 < k < |rest|
      ensures Follows(rest[k - 1], rest[k], rate)
    {
      assert Follows(frames[k + 1 - 1], frames[k + 1], rate);
    }
  }

  lemma {:induction false} NotYetStarted(frames: seq<Frame>, rate: nat, batch: nat, t: nat)
    requires Paced(frames, rate, batch) && rate >= 1 && (frames != [] ==> t < frames[0].start)
    ensures SentByAll(frames, t) == 0 && Started(frames, t) == 0
  {
    if frames != [] {
      OneFrame(frames[0], rate, batch, t);
      RestPaced(frames, rate, batch);
      if |frames| > 1 {
        assert Follows(frames[0], frames[1], rate);
      }
      NotYetStarted(frames[1..], rate, batch, t);
    }
  }

  // ----- batches -----

  /** Batches of exactly `size` shards, one behind the other, up to shard `end`. */
  predicate FullUpTo(batches: seq<Batch>, end: nat, size: nat) {
    if batches == [] then end == 0
    else
      var b := batches[|batches| - 1];
      b.count == size && b.offset + size == end && FullUpTo(batches[..|batches| - 1], b.offset, size)
  }

  /** The batches of a block of `n` shards: all full but the last. */
  predicate Tiles(batches: seq<Batch>, n: nat, size: nat) {
    if batches == [] then n == 0
    else
      var b := batches[|batches| - 1];
      1 <= b.count <= size && b.offset + b.count == n && FullUpTo(batches[..|batches| - 1], b.offset, size)
  }

  predicate Holds(b: Batch, x: nat) {
    b.offset <= x < b.offset + b.count
  }

  lemma {:induction false} FullPartition(batches: seq<Batch>, end: nat, size: nat, x: nat) returns (i: nat)
    requires FullUpTo(batches, end, size) && size > 0
    ensures x >= end ==> forall j :: 0 <= j < |batches| ==> !Holds(batches[j], x)
    ensures x < end ==> i < |batches| && Holds(batches[i], x) && forall j :: 0 <= j < |batches| && j != i ==>
      !Holds(batches[j], x)
    decreases |batches|
  {
    i := 0;
    if batches != [] {
      var last := |batches| - 1;
      i := FullPartition(batches[..last], batches[last].offset, size, x);
      if batches[last].offset <= x < end {
        i := last;
      }
    }
  }

  /** Every shard of the block is in exactly one batch, the earlier shards in the earlier batches. */
  lemma BatchesPartition(batches: seq<Batch>, n: nat, size: nat, x: nat) returns (i: nat)
    requires Tiles(batches, n, size) && x < n
    ensures i < |batches| && Holds(batches[i], x) && forall j :: 0 <= j < |batches| && j != i ==> !Holds(batches[j], x)
    ensures i + 1 < |batches| ==> batches[i].count == size && batches[i].offset + size == batches[i + 1].offset
  {
    var last := |batches| - 1;
    i := FullPartition(batches[..last], batches[last].offset, size, x);
    if batches[last].offset <= x {
      i := last;
    } else {
      FullNext(batches[..last], batches[last].offset, size, i);
    }
  }

  lemma {:induction false} FullNext(batches: seq<Batch>, end: nat, size: nat, i: nat)
    requires FullUpTo(batches, end, size) && i < |batches|
    ensures batches[i].count == size
    ensures batches[i].offset + size == if i + 1 < |batches| then batches[i + 1].offset else end
    decreases |batches|
  {
    if i + 1 < |batches| {
      FullNext(batches[..|batches| - 1], batches[|batches| - 1].offset, size, i);
    }
  }

  lemma TilesMore(batches: seq<Batch>, b: Batch, n: nat, size: nat)
    requires FullUpTo(batches, b.offset, size) && 1 <= b.count <= size && n == b.offset + b.count
    ensures Tiles(batches + [b], n, size) && (b.count == size ==> FullUpTo(batches + [b], n, size))
  {
    assert (batches + [b])[..|batches|] == batches;
  }

  // ----- the code that paces -----

  /** The steady clock and the timer; how much time passes between two calls is not known. */
  class Clock {
    const ticks: nat -> nat
    var calls: nat
    var time: nat
    /** Until when the last sleep was asked to last. */
    ghost var wake: nat

    constructor (ticks: nat -> nat)
      ensures wake == 0
    {
      this.ticks := ticks;
      calls, time, wake := 0, ticks(0), 0;
    }

    method Now() returns (t: nat)
      modifies this`calls, this`time
      ensures t == time >= old(time)
    {
      calls, time := calls + 1, time + ticks(calls);
      t := time;
    }

    /** sleep_for sleeps at least as long as asked. */
    method SleepFor(duration: nat)
      modifies this
      ensures time >= old(time) + duration && wake == old(time) + duration
    {
      wake := time + duration;
      calls, time := calls + 1, time + duration + ticks(calls);
    }
  }

  /** When packet number `sent` of a frame is due. */
  function Due(start: nat, sent: nat, rate: nat): (t: nat)
    requires rate > 0
    ensures t >= start
  {
    start + NS_PER_MS * sent / rate
  }

  /** That is the first nanosecond at whose end the rate allows `n` packets: nothing waits longer than it must. */
  lemma DueIsEarliest(start: nat, n: nat, rate: nat, t: nat)
    requires rate > 0 && start <= t
    ensures Due(start, n, rate) <= t <==> NS_PER_MS * n < (t - start + 1) * rate
  {
    DivLess(NS_PER_MS * n, rate, t - start + 1);
  }

  lemma DueMono(start: nat, a: nat, b: nat, rate: nat)
    requires rate > 0 && a <= b
    ensures Due(start, a, rate) <= Due(start, b, rate)
  {
    DivModDef(NS_PER_MS * b, rate);
    DivLess(NS_PER_MS * a, rate, NS_PER_MS * b / rate + 1);
    MulDist(NS_PER_MS * b / rate, 1, rate);
  }

  /** By the time `n` packets are due, the rate allows them, but for rounding. */
  lemma DueAllows(start: nat, n: nat, rate: nat, at: nat)
    requires rate > 0 && Due(start, n, rate) <= at
    ensures NS_PER_MS * n <= (at - start) * rate + (rate - 1)
  {
    DivModDef(NS_PER_MS * n, rate);
    MulMono(NS_PER_MS * n / rate, at - start, rate);
  }

  /** The loop state within a frame: of its `sent` packets, `group` were sent since the last pacing. */
  ghost predicate InFrame(f: Frame, sent: nat, group: nat, rate: nat, batch: nat, time: nat) {
    && rate > 0 && FramePaced(f, rate, batch) && Count(f.batches) == sent && group <= sent
    && (sent > 0 ==> Due(f.start, sent - group, rate) <= time)
  }

  lemma Budget(start: nat, sent: nat, group: nat, rate: nat, batch: nat, at: nat, count: nat)
    requires group <= sent && group < rate && count <= batch && start <= at && Due(start, sent - group, rate) <= at
    ensures WithinBudget(sent + count, at - start, rate, batch)
  {
    DueAllows(start, sent - group, rate, at);
  }

  lemma PacedMore(f: Frame, rate: nat, batch: nat, b: Batch)
    requires FramePaced(f, rate, batch) && f.start <= b.at
    requires WithinBudget(Count(f.batches) + b.count, b.at - f.start, rate, batch)
    ensures FramePaced(f.(batches := f.batches + [b]), rate, batch)
    ensures Count(f.batches + [b]) == Count(f.batches) + b.count
  {
    var g := f.(batches := f.batches + [b]);
    LastPaced(f, rate, batch, b);
    forall i | 0 <= i < |g.batches|
      ensures BatchPaced(g, i, rate, batch)
    {
      if i < |f.batches| {
        assert g.batches[..i + 1] == f.batches[..i + 1];
        LaterBatches(f, g, i, rate, batch);
      }
    }
  }

  lemma LastPaced(f: Frame, rate: nat, batch: nat, b: Batch)
    requires f.start <= b.at && WithinBudget(Count(f.batches) + b.count, b.at - f.start, rate, batch)
    ensures BatchPaced(f.(batches := f.batches + [b]), |f.batches|, rate, batch)
    ensures Count(f.batches + [b]) == Count(f.batches) + b.count
  {
    var more := f.batches + [b];
    assert more[..|f.batches|] == f.batches && more[..|f.batches| + 1] == more;
  }

  /** Waits until packet number `sent` is due, if enough were sent since the last time. */
  method Pace(clock: Clock, start: nat, sent: nat, group: nat, rate: nat) returns (group': nat)
    requires rate > 0 && group <= sent && clock.wake <= Due(start, sent, rate)
    requires sent > 0 ==> Due(start, sent - group, rate) <= clock.time
    modifies clock
    ensures group' <= group && group' < rate && Due(start, sent - group', rate) <= clock.time
    ensures clock.time >= old(clock.time) && clock.wake <= Due(start, sent, rate)
  {
    group' := group;
    if group >= rate || sent == 0 {
      var due := start + NS_PER_MS * sent / rate;
      var now := clock.Now();
      if now < due {
        clock.SleepFor(due - now);
      }
      group' := 0;
    }
  }

  /** Paces if need be, and sends `size` shards from `offset` on. */
  method SendBatch(clock: Clock, start: nat, sent: nat, group: nat, rate: nat, ghost batch: nat, offset: nat, size: nat,
                   ghost f: Frame)
    returns (group': nat, ghost f': Frame)
    requires f.start == start && InFrame(f, sent, group, rate, batch, clock.time) && size <= batch
    requires clock.wake <= Due(start, sent, rate)
    modifies clock
    ensures InFrame(f', sent + size, group', rate, batch, clock.time)
    ensures f' == Frame(start, f.batches + [Batch(clock.time, offset, size)])
    ensures clock.time >= old(clock.time) && clock.wake <= Due(start, sent, rate)
  {
    group' := Pace(clock, start, sent, group, rate);
    Budget(start, sent, group', rate, batch, clock.time, size);
    ghost var b := Batch(clock.time, offset, size);
    PacedMore(f, rate, batch, b);
    f' := Frame(start, f.batches + [b]);
    group' := group' + size;
  }

  /** Of a block of `n` shards that began after `before`, all up to `next` have been sent. */
  ghost predicate InBlock(before: seq<Batch>, batches: seq<Batch>, next: nat, n: nat, size: nat) {
    && next <= n && |before| <= |batches| && batches[..|before|] == before
    && if next < n then FullUpTo(batches[|before|..], next, size) else Tiles(batches[|before|..], n, size)
  }

  lemma InBlockMore(before: seq<Batch>, batches: seq<Batch>, b: Batch, n: nat, size: nat)
    requires InBlock(before, batches, b.offset, n, size) && b.offset < n
    requires 1 <= b.count <= size && b.offset + b.count <= n && (b.count == size || b.offset + b.count == n)
    ensures InBlock(before, batches + [b], b.offset + b.count, n, size)
  {
    assert (batches + [b])[|before|..] == batches[|before|..] + [b];
    TilesMore(batches[|before|..], b, b.offset + b.count, size);
  }

  /** The batch from `nextShard` to `x`. */
  method SendPart(clock: Clock, start: nat, sent: nat, group: nat, rate: nat, ghost size: nat, nextShard: nat, x: nat,
                  ghost n: nat, ghost before: seq<Batch>, ghost f: Frame)
    returns (sent': nat, group': nat, ghost f': Frame)
    requires f.start == start && InFrame(f, sent, group, rate, size, clock.time) && clock.wake <= Due(start, sent, rate)
    requires nextShard <= x < n && x - nextShard < size && (x - nextShard + 1 == size || x + 1 == n)
    requires InBlock(before, f.batches, nextShard, n, size)
    modifies clock
    ensures sent' == sent + (x - nextShard + 1) && f'.start == start
    ensures InFrame(f', sent', group', rate, size, clock.time)
    ensures clock.time >= old(clock.time) && clock.wake <= Due(start, sent', rate)
    ensures InBlock(before, f'.batches, x + 1, n, size)
  {
    var current := x - nextShard + 1;
    sent' := sent + current;
    DueMono(start, sent, sent', rate);
    group', f' := SendBatch(clock, start, sent, group, rate, size, nextShard, current, f);
    InBlockMore(before, f.batches, Batch(clock.time, nextShard, current), n, size);
  }

  /** One FEC block of `n` shards. */
  method SendBlock(clock: Clock, start: nat, sent: nat, group: nat, rate: nat, limit: nat, n: nat, ghost f: Frame)
    returns (sent': nat, group': nat, ghost f': Frame)
    requires f.start == start && InFrame(f, sent, group, rate, if limit == 0 then 1 else limit, clock.time)
    requires clock.wake <= Due(start, sent, rate)
    modifies clock
    ensures InFrame(f', sent', group', rate, if limit == 0 then 1 else limit, clock.time) && sent' == sent + n
    ensures f'.start == start && InBlock(f.batches, f'.batches, n, n, if limit == 0 then 1 else limit)
    ensures clock.time >= old(clock.time) && clock.wake <= Due(start, sent', rate)
  {
    ghost var size := if limit == 0 then 1 else limit;
    var nextShard, x := 0, 0;
    sent', group', f' := sent, group, f;
    assert f.batches[|f.batches|..] == [];
    while x < n
      invariant nextShard <= x <= n && x - nextShard < size && sent' == sent + nextShard
      invariant x == n ==> nextShard == n
      invariant f'.start == start && InBlock(f.batches, f'.batches, nextShard, n, size)
      invariant InFrame(f', sent', group', rate, size, clock.time) && clock.wake <= Due(start, sent', rate)
      invariant clock.time >= old(clock.time)
    {
      if x - nextShard + 1 >= limit || x + 1 == n {
        sent', group', f' := SendPart(clock, start, sent', group', rate, size, nextShard, x, n, f.batches, f');
        nextShard := x + 1;
      }
      x := x + 1;
    }
  }

  class Pacer {
    const clock: Clock
    const rate: nat
    const limit: nat
    var nextFrameStart: nat
    /** Every frame sent so far. */
    ghost var frames: seq<Frame>

    ghost predicate Valid()
      reads this, clock
    {
      && rate >= 1 && Paced(frames, rate, Size())
      && (frames != [] ==> Follows(frames[|frames| - 1], Frame(nextFrameStart, []), rate))
      && clock.wake <= nextFrameStart
    }

    ghost function Size(): nat {
      if limit == 0 then 1 else limit
    }

    constructor (clock: Clock, bs: nat)
      requires 0 < bs <= 100_000 && clock.wake == 0
      modifies clock
      ensures Valid() && frames == [] && this.clock == clock
      ensures rate == PacketsPerMs(bs) && limit == BatchLimit(bs) && Size() == BatchSize(bs)
    {
      RateIsPositive(bs);
      this.clock := clock;
      rate, limit, frames := PacketsPerMs(bs), BatchLimit(bs), [];
      var now := clock.Now();
      nextFrameStart := now;
    }

    /** A frame whose FEC blocks have these numbers of shards. */
    method SendFrame(blocks: seq<nat>) returns (ghost cuts: seq<nat>)
      requires Valid() && blocks != []
      modifies this`nextFrameStart, this`frames, clock
      ensures Valid()
      ensures |frames| == |old(frames)| + 1 && frames[..|old(frames)|] == old(frames)
      ensures old(nextFrameStart) <= frames[|old(frames)|].start && old(clock.time) <= frames[|old(frames)|].start
      ensures frames[|old(frames)|].start == old(nextFrameStart) || frames[|old(frames)|].start <= clock.time
      ensures BlocksSent(frames[|old(frames)|].batches, cuts, blocks, Size())
      ensures nextFrameStart == Due(frames[|old(frames)|].start, Count(frames[|old(frames)|].batches), rate)
    {
      var now := clock.Now();
      var start := if nextFrameStart < now then now else nextFrameStart;
      var sent, group, b := 0, 0, 0;
      ghost var f, past := Frame(start, []), frames;
      FollowsLater(frames, nextFrameStart, start, rate);
      cuts := [0];
      while b < |blocks|
        invariant b <= |blocks| && f.start == start && frames == past
        invariant start == old(nextFrameStart) || start <= clock.time
        invariant InFrame(f, sent, group, rate, Size(), clock.time)
        invariant (b > 0 ==> nextFrameStart == Due(start, sent, rate)) && clock.wake <= Due(start, sent, rate)
        invariant BlocksSent(f.batches, cuts, blocks[..b], Size())
      {
        ghost var before := f.batches;
        sent, group, f := SendBlock(clock, start, sent, group, rate, limit, blocks[b], f);
        // the earliest start that the frame after this one may have
        nextFrameStart := start + NS_PER_MS * sent / rate;
        BlockAdded(before, f.batches, cuts, blocks, b, Size());
        cuts := cuts + [|f.batches|];
        b := b + 1;
      }
      assert blocks[..b] == blocks;
      DueAllows(start, sent, rate, nextFrameStart);
      FrameAdded(past, f, rate, Size());
      frames := past + [f];
    }
  }

  /** Block `b` went out as batches cuts[b] up to cuts[b + 1]. */
  ghost predicate BlocksSent(batches: seq<Batch>, cuts: seq<nat>, blocks: seq<nat>, size: nat) {
    && |cuts| == |blocks| + 1 && cuts[0] == 0 && cuts[|blocks|] == |batches|
    && forall b :: 0 <= b < |blocks| ==> BlockSent(batches, cuts, blocks[b], b, size)
  }

  ghost predicate BlockSent(batches: seq<Batch>, cuts: seq<nat>, n: nat, b: nat, size: nat) {
    b + 1 < |cuts| && cuts[b] <= cuts[b + 1] <= |batches| && Tiles(batches[cuts[b]..cuts[b + 1]], n, size)
  }

  lemma BlockAdded(before: seq<Batch>, after: seq<Batch>, cuts: seq<nat>, blocks: seq<nat>, b: nat, size: nat)
    requires b < |blocks| && BlocksSent(before, cuts, blocks[..b], size)
    requires InBlock(before, after, blocks[b], blocks[b], size)
    ensures BlocksSent(after, cuts + [|after|], blocks[..b + 1], size)
  {
    var cuts', blocks' := cuts + [|after|], blocks[..b + 1];
    forall k | 0 <= k < |blocks'|
      ensures BlockSent(after, cuts', blocks'[k], k, size)
    {
      if k < b {
        assert blocks'[k] == blocks[..b][k];
        BlockKept(before, after, cuts, cuts', blocks'[k], k, size);
      } else {
        assert after[cuts'[k]..cuts'[k + 1]] == after[|before|..];
      }
    }
  }

  lemma BlockKept(before: seq<Batch>, after: seq<Batch>, cuts: seq<nat>, cuts': seq<nat>, n: nat, k: nat, size: nat)
    requires BlockSent(before, cuts, n, k, size) && cuts <= cuts' && before <= after
    ensures BlockSent(after, cuts', n, k, size)
  {
    assert after[cuts[k]..cuts[k + 1]] == before[cuts[k]..cuts[k + 1]];
  }

  lemma FollowsLater(frames: seq<Frame>, a: nat, b: nat, rate: nat)
    requires a <= b && (frames != [] ==> Follows(frames[|frames| - 1], Frame(a, []), rate))
    ensures frames != [] ==> Follows(frames[|frames| - 1], Frame(b, []), rate)
  {
    if frames != [] {
      var s := frames[|frames| - 1].start;
      MulMono(a - s, b - s, rate);
    }
  }

  lemma FrameAdded(frames: seq<Frame>, f: Frame, rate: nat, batch: nat)
    requires Paced(frames, rate, batch) && FramePaced(f, rate, batch)
    requires frames != [] ==> Follows(frames[|frames| - 1], Frame(f.start, []), rate)
    ensures Paced(frames + [f], rate, batch)
  {
  }
}
