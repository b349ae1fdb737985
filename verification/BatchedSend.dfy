/**
 * Sending a range of shards at once: send_batch of src/platform/linux/misc.cpp, and the one-by-one sends of
 * src/stream.cpp that stand in for it.
 */
module BatchedSend {
  import opened Arithmetic
  import opened Basics
  import opened Packetizer
  import opened FecShards

  /**
   * An encoded block: `size` bytes of the frame at `base`, the second buffer with the padded shard and `parity` more,
   * and `hs` bytes of header for each shard.
   */
  datatype Block = Block(payload: seq<Byte>, shards: seq<Byte>, headers: seq<Byte>, base: nat, size: nat, bs: nat,
                         parity: nat, hs: nat)

  predicate Valid(k: Block) {
    && k.bs > 0 && k.base + k.size <= |k.payload|
    && |k.shards| == (PadShards(k.size, k.bs) + k.parity) * k.bs
    && |k.headers| == Total(k) * k.hs
  }

  function Total(k: Block): nat
    requires k.bs > 0
  {
    Pieces(k.size, k.bs) + k.parity
  }

  function Buffers(k: Block): seq<Buffer>
    requires k.bs > 0
  {
    BuffersFor(k.base, k.size, k.bs, k.parity)
  }

  function Bytes(k: Block, b: Buffer): seq<Byte>
    requires Inside(k, b)
  {
    ShardBytes(k.payload, k.shards, b.start, b.size)
  }

  predicate Inside(k: Block, b: Buffer) {
    InBounds(|k.payload|, |k.shards|, b.start, b.size)
  }

  // ----- both buffers as one -----

  /** Where the second buffer begins. */
  function Aligned(k: Block): nat
    requires k.bs > 0
  {
    k.size / k.bs * k.bs
  }

  function Both(k: Block): seq<Byte>
    requires Valid(k)
  {
    BlockLayout(k.size, k.bs, 0);
    k.payload[k.base..k.base + Aligned(k)] + k.shards
  }

  lemma BothSize(k: Block)
    requires Valid(k)
    ensures |Both(k)| == Total(k) * k.bs
  {
    BlockLayout(k.size, k.bs, 0);
    MulDist(k.size / k.bs, PadShards(k.size, k.bs) + k.parity, k.bs);
  }

  /** What is found at an offset is the rest of one of the buffers, which are `w` together. */
  ghost predicate RestAt(k: Block, w: seq<Byte>, off: nat)
    requires k.bs > 0
  {
    var b := BufferAt(Buffers(k), off);
    && b.Some? && Inside(k, b.value) && 0 < b.value.size && off + b.value.size <= |w|
    && Bytes(k, b.value) == w[off..off + b.value.size]
    && off + b.value.size == if off < Aligned(k) then Aligned(k) else |w|
  }

  lemma RestFound(k: Block, off: nat)
    requires Valid(k) && off < |Both(k)|
    ensures RestAt(k, Both(k), off)
  {
    BlockLayout(k.size, k.bs, 0);
    assert Buffers(k) == [Buffer(InPayload(k.base), Aligned(k)), Buffer(InShards(0), |k.shards|)];
    TwoBuffers(k.base, Aligned(k), |k.shards|, off);
    TwoSlices(k.payload, k.shards, k.base, Aligned(k), off);
  }

  lemma TwoBuffers(base: nat, aligned: nat, n: nat, off: nat)
    ensures BufferAt([Buffer(InPayload(base), aligned), Buffer(InShards(0), n)], off)
      == if off < aligned then Some(Buffer(InPayload(base + off), aligned - off))
         else if off < aligned + n then Some(Buffer(InShards(off - aligned), aligned + n - off))
         else None
  {
    var buffers := [Buffer(InPayload(base), aligned), Buffer(InShards(0), n)];
    assert buffers[1..] == [buffers[1]];
    if off >= aligned {
      OneBuffer(buffers[1], off - aligned);
      assert BufferAt(buffers, off) == BufferAt([buffers[1]], off - aligned);
    }
  }

  lemma OneBuffer(b: Buffer, off: nat)
    requires b.start == InShards(0)
    ensures BufferAt([b], off) == if off < b.size then Some(Buffer(InShards(off), b.size - off)) else None
  {
    assert [b][1..] == [];
  }

  lemma TwoSlices(payload: seq<Byte>, shards: seq<Byte>, base: nat, aligned: nat, off: nat)
    requires base + aligned <= |payload| && off < aligned + |shards|
    ensures var both := payload[base..base + aligned] + shards;
      if off < aligned then both[off..aligned] == payload[base + off..base + aligned]
      else both[off..|both|] == shards[off - aligned..|shards|]
  {
  }

  /** A shorter piece of what was found. */
  lemma FirstBytes(k: Block, b: Buffer, w: seq<Byte>, off: nat, n: nat)
    requires Inside(k, b) && off + b.size <= |w| && Bytes(k, b) == w[off..off + b.size] && n <= b.size
    ensures Bytes(k, Buffer(b.start, n)) == w[off..off + n]
  {
    assert Bytes(k, b)[..n] == Bytes(k, Buffer(b.start, n));
    assert w[off..off + b.size][..n] == w[off..off + n];
  }

  lemma SliceMore(s: seq<Byte>, a: nat, b: nat, c: nat)
    requires a <= b <= c <= |s|
    ensures s[a..b] + s[b..c] == s[a..c]
  {
  }

  // ----- packets -----

  function Header(k: Block, x: nat): (h: seq<Byte>)
    requires x * k.hs + k.hs <= |k.headers|
    ensures |h| == k.hs
  {
    k.headers[x * k.hs..x * k.hs + k.hs]
  }

  /** Packet `x` as it is sent alone: its header, and what data(x) points to. */
  function Packet(k: Block, x: nat): (p: seq<Byte>)
    requires PacketInside(k, x)
    ensures |p| == k.hs + k.bs
  {
    Header(k, x) + Bytes(k, Buffer(ShardPtr(k.base, k.size, k.bs, x), k.bs))
  }

  predicate PacketInside(k: Block, x: nat) {
    k.bs > 0 && x * k.hs + k.hs <= |k.headers| && Inside(k, Buffer(ShardPtr(k.base, k.size, k.bs, x), k.bs))
  }

  /** All packets of the block. */
  function Packets(k: Block): (ps: seq<seq<Byte>>)
    requires Valid(k)
    ensures |ps| == Total(k)
  {
    seq(Total(k), x requires 0 <= x < Total(k) => PacketFound(k, x); Packet(k, x))
  }

  /** Where both the header and the shard are, and that the buffers have the shard at `x` block sizes. */
  lemma PacketFound(k: Block, x: nat)
    requires Valid(k) && x < Total(k)
    ensures PacketInside(k, x) && x * k.bs + k.bs <= |Both(k)|
    ensures Bytes(k, Buffer(ShardPtr(k.base, k.size, k.bs, x), k.bs)) == Both(k)[x * k.bs..x * k.bs + k.bs]
  {
    MulMono(x + 1, Total(k), k.hs);
    MulDist(x, 1, k.hs);
    ShardFound(k, x);
  }

  lemma ShardFound(k: Block, x: nat)
    requires Valid(k) && x < Total(k)
    ensures Inside(k, Buffer(ShardPtr(k.base, k.size, k.bs, x), k.bs)) && x * k.bs + k.bs <= |Both(k)|
    ensures Bytes(k, Buffer(ShardPtr(k.base, k.size, k.bs, x), k.bs)) == Both(k)[x * k.bs..x * k.bs + k.bs]
  {
    BothSize(k);
    MulMono(x + 1, Total(k), k.bs);
    MulDist(x, 1, k.bs);
    BatchedIsUnbatched(k.base, k.size, k.bs, k.parity, x);
    RestFound(k, x * k.bs);
    FirstBytes(k, BufferAt(Buffers(k), x * k.bs).value, Both(k), x * k.bs, k.bs);
  }

  function Flat(ps: seq<seq<Byte>>): seq<Byte> {
    if ps == [] then [] else Flat(ps[..|ps| - 1]) + ps[|ps| - 1]
  }

  lemma FlatMore(ps: seq<seq<Byte>>, p: seq<Byte>)
    ensures Flat(ps + [p]) == Flat(ps) + p
  {
    assert (ps + [p])[..|ps|] == ps;
  }

  lemma FlatNothing(ps: seq<seq<Byte>>, from: nat)
    requires from <= |ps|
    ensures Flat(ps[from..from]) == []
  {
  }

  lemma FlatSlice(ps: seq<seq<Byte>>, from: nat, x: nat)
    requires from <= x < |ps|
    ensures Flat(ps[from..x + 1]) == Flat(ps[from..x]) + ps[x]
  {
    FlatMore(ps[from..x], ps[x]);
    assert ps[from..x + 1] == ps[from..x] + [ps[x]];
  }

  lemma {:induction false} FlatHead(ps: seq<seq<Byte>>)
    requires ps != []
    ensures Flat(ps) == ps[0] + Flat(ps[1..])
    decreases |ps|
  {
    if |ps| == 1 {
      assert ps[..0] == [] && ps[1..] == [];
    } else {
      var front, last := ps[..|ps| - 1], ps[|ps| - 1];
      FlatHead(front);
      FlatMore(front[1..], last);
      assert ps[1..] == front[1..] + [last];
      Associative(ps[0], Flat(front[1..]), last);
    }
  }

  lemma Associative(a: seq<Byte>, b: seq<Byte>, c: seq<Byte>)
    ensures a + b + c == a + (b + c)
  {
  }

  /** What the kernel makes of a message: segments of `n` bytes, and what is left. */
  function Cut(data: seq<Byte>, n: nat): seq<seq<Byte>>
    requires n > 0
    decreases |data|
  {
    if data == [] then []
    else if |data| <= n then [data]
    else [data[..n]] + Cut(data[n..], n)
  }

  lemma CutConcat(a: seq<Byte>, b: seq<Byte>, n: nat)
    requires n > 0 && |a| == n
    ensures Cut(a + b, n) == [a] + Cut(b, n)
  {
    assert (a + b)[..n] == a && (a + b)[n..] == b;
    assert b == [] ==> a + b == a;
  }

  /** Cutting undoes putting packets of that size one behind the other. */
  lemma {:induction false} CutFlat(ps: seq<seq<Byte>>, n: nat)
    requires n > 0 && forall i :: 0 <= i < |ps| ==> |ps[i]| == n
    ensures Cut(Flat(ps), n) == ps
    decreases |ps|
  {
    if ps != [] {
      FlatHead(ps);
      CutFlat(ps[1..], n);
      CutConcat(ps[0], Flat(ps[1..]), n);
    }
  }

  // ----- what the sending loops rely on -----

  /** The packets from `from` to `end` are, one behind the other, this part of `w`. */
  ghost predicate IsSlice(bs: nat, ps: seq<seq<Byte>>, w: seq<Byte>, from: nat, end: nat)
    requires from <= end <= |ps|
  {
    from * bs <= end * bs <= |w| && Flat(ps[from..end]) == w[from * bs..end * bs]
  }

  ghost predicate PacketReads(k: Block, ps: seq<seq<Byte>>, x: nat)
    requires k.bs > 0 && x < |ps|
  {
    && PacketInside(k, x) && ps[x] == Packet(k, x)
    && BufferAt(Buffers(k), x * k.bs).Some?
      && BufferAt(Buffers(k), x * k.bs).value.start == ShardPtr(k.base, k.size, k.bs, x)
  }

  /** `ps` are the packets of the block, and `w` is both of its buffers. */
  ghost predicate Reads(k: Block, ps: seq<seq<Byte>>, w: seq<Byte>) {
    && k.bs > 0
    && (forall x :: 0 <= x < |ps| ==> PacketReads(k, ps, x))
    && (forall off :: 0 <= off < |w| ==> RestAt(k, w, off))
    && (k.hs == 0 ==> forall from, end :: 0 <= from <= end <= |ps| ==> IsSlice(k.bs, ps, w, from, end))
  }

  lemma NoneIsSlice(bs: nat, ps: seq<seq<Byte>>, w: seq<Byte>, from: nat)
    requires from <= |ps| && |w| == |ps| * bs
    ensures IsSlice(bs, ps, w, from, from)
  {
    MulMono(from, |ps|, bs);
    FlatNothing(ps, from);
  }

  lemma OneMoreIsSlice(bs: nat, ps: seq<seq<Byte>>, w: seq<Byte>, from: nat, x: nat)
    requires from <= x < |ps| && IsSlice(bs, ps, w, from, x)
    requires x * bs + bs <= |w| && ps[x] == w[x * bs..x * bs + bs]
    ensures IsSlice(bs, ps, w, from, x + 1)
  {
    MulDist(x, 1, bs);
    FlatSlice(ps, from, x);
    SliceMore(w, from * bs, x * bs, x * bs + bs);
  }

  lemma {:induction false} RangeIsSlice(k: Block, from: nat, end: nat)
    requires Valid(k) && k.hs == 0 && from <= end <= Total(k)
    ensures IsSlice(k.bs, Packets(k), Both(k), from, end)
    decreases end
  {
    if from == end {
      BothSize(k);
      NoneIsSlice(k.bs, Packets(k), Both(k), from);
    } else {
      var x := end - 1;
      RangeIsSlice(k, from, x);
      PacketIsSlice(k, x);
      OneMoreIsSlice(k.bs, Packets(k), Both(k), from, x);
    }
  }

  lemma PacketIsSlice(k: Block, x: nat)
    requires Valid(k) && k.hs == 0 && x < Total(k)
    ensures x * k.bs + k.bs <= |Both(k)| && Packets(k)[x] == Both(k)[x * k.bs..x * k.bs + k.bs]
  {
    PacketFound(k, x);
    assert Packets(k)[x] == Packet(k, x);
  }

  lemma BlockReads(k: Block)
    requires Valid(k)
    ensures Reads(k, Packets(k), Both(k))
  {
    forall x | 0 <= x < Total(k)
      ensures PacketReads(k, Packets(k), x)
    {
      PacketFound(k, x);
      BatchedIsUnbatched(k.base, k.size, k.bs, k.parity, x);
    }
    forall off | 0 <= off < |Both(k)|
      ensures RestAt(k, Both(k), off)
    {
      RestFound(k, off);
    }
    forall from, end | 0 <= from <= end <= Total(k) && k.hs == 0
      ensures IsSlice(k.bs, Packets(k), Both(k), from, end)
    {
      RangeIsSlice(k, from, end);
    }
  }

  // ----- messages -----

  /** An entry of msg_iov. */
  datatype Iov = OfHeaders(at: nat, size: nat) | OfBuffer(b: Buffer)

  predicate IovInside(k: Block, v: Iov) {
    match v
    case OfHeaders(at, size) => at + size <= |k.headers|
    case OfBuffer(b) => Inside(k, b)
  }

  function IovBytes(k: Block, v: Iov): seq<Byte>
    requires IovInside(k, v)
  {
    match v
    case OfHeaders(at, size) => k.headers[at..at + size]
    case OfBuffer(b) => Bytes(k, b)
  }

  /** Every entry points to memory of the block. */
  ghost predicate AllInside(k: Block, iovs: seq<Iov>) {
    forall i :: 0 <= i < |iovs| ==> IovInside(k, iovs[i])
  }

  function Texts(k: Block, iovs: seq<Iov>): (ts: seq<seq<Byte>>)
    requires AllInside(k, iovs)
    ensures |ts| == |iovs|
  {
    seq(|iovs|, i requires 0 <= i < |iovs| => IovBytes(k, iovs[i]))
  }

  /** What the kernel gathers for one message. */
  function Gathered(k: Block, iovs: seq<Iov>): seq<Byte>
    requires AllInside(k, iovs)
  {
    Flat(Texts(k, iovs))
  }

  ghost predicate GathersText(k: Block, iovs: seq<Iov>, text: seq<Byte>) {
    AllInside(k, iovs) && Gathered(k, iovs) == text
  }

  lemma GatheredMore(k: Block, iovs: seq<Iov>, v: Iov, text: seq<Byte>)
    requires GathersText(k, iovs, text) && IovInside(k, v)
    ensures GathersText(k, iovs + [v], text + IovBytes(k, v))
  {
    FlatMore(Texts(k, iovs), IovBytes(k, v));
    assert Texts(k, iovs + [v]) == Texts(k, iovs) + [IovBytes(k, v)];
  }

  lemma GathersSlice(k: Block, iovs: seq<Iov>, b: Buffer, w: seq<Byte>, start: nat, offset: nat)
    requires start <= offset && offset + b.size <= |w| && GathersText(k, iovs, w[start..offset])
    requires Inside(k, b) && Bytes(k, b) == w[offset..offset + b.size]
    ensures GathersText(k, iovs + [OfBuffer(b)], w[start..offset + b.size])
  {
    GatheredMore(k, iovs, OfBuffer(b), w[start..offset]);
    SliceMore(w, start, offset, offset + b.size);
  }

  function Least(a: nat, b: nat): nat { if a <= b then a else b }

  /** One turn of the loop below: the rest of the buffer that holds `offset`, up to `end`. */
  method AddBuffer(k: Block, iovs: seq<Iov>, offset: nat, end: nat, ghost ps: seq<seq<Byte>>, ghost w: seq<Byte>,
                   ghost start: nat)
    returns (iovs': seq<Iov>, offset': nat)
    requires Reads(k, ps, w) && start <= offset < end <= |w| && GathersText(k, iovs, w[start..offset])
    ensures offset < offset' <= end && GathersText(k, iovs', w[start..offset']) && |iovs'| == |iovs| + 1
    ensures offset' < end ==> offset < Aligned(k) == offset'
  {
    var desc := BufferForPayloadOffset(Buffers(k), offset);
    assert RestAt(k, w, offset);
    var b := Buffer(desc.value.start, Least(desc.value.size, end - offset));
    FirstBytes(k, desc.value, w, offset, b.size);
    iovs', offset' := iovs + [OfBuffer(b)], offset + b.size;
    GathersSlice(k, iovs, b, w, start, offset);
  }

  /** Translates buffer descriptors: a message without headers needs no more entries than there are buffers. */
  method PayloadIovs(k: Block, start: nat, end: nat, ghost ps: seq<seq<Byte>>, ghost w: seq<Byte>)
    returns (iovs: seq<Iov>)
    requires Reads(k, ps, w) && start <= end <= |w|
    ensures GathersText(k, iovs, w[start..end]) && |iovs| <= |Buffers(k)|
  {
    iovs := [];
    var offset := start;
    assert w[start..offset] == [];
    while offset < end
      invariant start <= offset <= end && GathersText(k, iovs, w[start..offset])
      invariant |iovs| == 0 || (|iovs| == 1 && offset < end ==> offset == Aligned(k))
      invariant |iovs| <= 1 || (|iovs| == 2 && offset == end)
      decreases end - offset
    {
      iovs, offset := AddBuffer(k, iovs, offset, end, ps, w, start);
    }
  }

  /** The entries gather the packets from `from` to `end`. */
  ghost predicate Gathers(k: Block, iovs: seq<Iov>, ps: seq<seq<Byte>>, from: nat, end: nat)
    requires from <= end <= |ps|
  {
    GathersText(k, iovs, Flat(ps[from..end]))
  }

  lemma GathersNothing(k: Block, ps: seq<seq<Byte>>, from: nat)
    requires from <= |ps|
    ensures Gathers(k, [], ps, from, from)
  {
    FlatNothing(ps, from);
  }

  /** One turn of the loop below: the header and the shard of packet `x`. */
  method AddPacket(k: Block, iovs: seq<Iov>, x: nat, ghost ps: seq<seq<Byte>>, ghost w: seq<Byte>, ghost from: nat)
    returns (iovs': seq<Iov>)
    requires Reads(k, ps, w) && from <= x < |ps| && Gathers(k, iovs, ps, from, x)
    ensures Gathers(k, iovs', ps, from, x + 1) && |iovs'| == |iovs| + 2
  {
    var header, payload := PacketIovs(k, x, ps, w);
    PacketGathered(k, iovs, header, payload, Flat(ps[from..x]), ps[x]);
    FlatSlice(ps, from, x);
    iovs' := iovs + [header, payload];
  }

  method PacketIovs(k: Block, x: nat, ghost ps: seq<seq<Byte>>, ghost w: seq<Byte>) returns (header: Iov, payload: Iov)
    requires Reads(k, ps, w) && x < |ps|
    ensures IovInside(k, header) && IovInside(k, payload) && ps[x] == IovBytes(k, header) + IovBytes(k, payload)
  {
    assert PacketReads(k, ps, x);
    header := OfHeaders(x * k.hs, k.hs);
    var desc := BufferForPayloadOffset(Buffers(k), x * k.bs);
    payload := OfBuffer(Buffer(desc.value.start, k.bs));
  }

  lemma PacketGathered(k: Block, iovs: seq<Iov>, header: Iov, payload: Iov, text: seq<Byte>, p: seq<Byte>)
    requires GathersText(k, iovs, text) && IovInside(k, header) && IovInside(k, payload)
    requires p == IovBytes(k, header) + IovBytes(k, payload)
    ensures GathersText(k, iovs + [header, payload], text + p)
  {
    GatheredMore(k, iovs, header, text);
    GatheredMore(k, iovs + [header], payload, text + IovBytes(k, header));
    assert iovs + [header] + [payload] == iovs + [header, payload];
    Associative(text, IovBytes(k, header), IovBytes(k, payload));
  }

  method HeaderIovs(k: Block, from: nat, n: nat, ghost ps: seq<seq<Byte>>, ghost w: seq<Byte>) returns (iovs: seq<Iov>)
    requires Reads(k, ps, w) && from + n <= |ps|
    ensures Gathers(k, iovs, ps, from, from + n) && |iovs| == 2 * n
  {
    iovs := [];
    var x := from;
    GathersNothing(k, ps, from);
    while x < from + n
      invariant from <= x <= from + n && Gathers(k, iovs, ps, from, x) && |iovs| == 2 * (x - from)
    {
      iovs := AddPacket(k, iovs, x, ps, w, from);
      x := x + 1;
    }
  }

  /** The message for `n` packets; without headers it fits the two entries the code reserves. */
  method Message(k: Block, from: nat, n: nat, headers: bool, ghost ps: seq<seq<Byte>>, ghost w: seq<Byte>)
    returns (iovs: seq<Iov>)
    requires Reads(k, ps, w) && from + n <= |ps| && (!headers ==> k.hs == 0)
    ensures Gathers(k, iovs, ps, from, from + n)
    ensures |iovs| == 2 * n || (!headers && |iovs| <= |Buffers(k)|)
  {
    if headers {
      iovs := HeaderIovs(k, from, n, ps, w);
    } else {
      assert IsSlice(k.bs, ps, w, from, from + n);
      iovs := PayloadIovs(k, from * k.bs, (from + n) * k.bs, ps, w);
    }
  }

  // ----- sending -----

  /** What sendmsg and sendmmsg may do: take so many packets, ask for a poll that then succeeds or fails, or fail. */
  datatype Outcome = Took(n: nat) | Again | PollFailed | Failed

  /** 65536 / 1500 */
  const SEG_MAX: nat := 43

  /** How many packets have left after the first loop, if `sent` had before these calls; behind them all calls fail. */
  function Segmented(outcomes: seq<Outcome>, count: nat, sent: nat): (n: nat)
    requires sent <= count
    ensures sent <= n <= count
    decreases |outcomes|
  {
    if sent == count || outcomes == [] then sent
    else
      match outcomes[0]
      case Took(n) => Segmented(outcomes[1..], count, sent + Least(n, Least(count - sent, SEG_MAX)))
      case Again => Segmented(outcomes[1..], count, sent)
      case PollFailed => sent
      case Failed => sent
  }

  /** The same for the second loop, and what it returns. */
  function OneByOne(outcomes: seq<Outcome>, count: nat, sent: nat): (r: (nat, bool))
    requires sent <= count
    ensures sent <= r.0 <= count
    decreases |outcomes|
  {
    if sent == count then (sent, true)
    else if outcomes == [] then (sent, false)
    else
      match outcomes[0]
      case Took(n) => OneByOne(outcomes[1..], count, sent + Least(n, count - sent))
      case Again => OneByOne(outcomes[1..], count, sent)
      case PollFailed => (sent, true)
      case Failed => (sent, false)
  }

  /** How many packets leave, and what send_batch returns. The second loop begins only if nothing has left. */
  function Answer(gso: seq<Outcome>, mmsg: seq<Outcome>, count: nat): (r: (nat, bool))
    ensures r.0 <= count
  {
    var n := Segmented(gso, count, 0);
    if n != 0 then (n, n >= count) else OneByOne(mmsg, count, 0)
  }

  /**
   * If true is returned, everything has left, unless a poll failed in the second loop; if false, something is left
   * over.
   */
  lemma {:induction false} OneByOneSends(outcomes: seq<Outcome>, count: nat, sent: nat)
    requires sent <= count
    ensures var (n, done) := OneByOne(outcomes, count, sent);
      (!done ==> n < count) && (done && n < count ==> PollFailed in outcomes)
    decreases |outcomes|
  {
    if sent != count && outcomes != [] {
      match outcomes[0] {
        case Took(n) => OneByOneSends(outcomes[1..], count, sent + Least(n, count - sent));
        case Again => OneByOneSends(outcomes[1..], count, sent);
        case _ =>
      }
    }
  }

  lemma AnswerIsHonest(gso: seq<Outcome>, mmsg: seq<Outcome>, count: nat)
    ensures var (n, done) := Answer(gso, mmsg, count);
      (!done ==> n < count) && (done && n < count ==> PollFailed in mmsg)
  {
    OneByOneSends(mmsg, count, 0);
  }

  /** How many packets the calls before the first failure take, no more than `most` each. */
  function TakenBy(outcomes: seq<Outcome>, most: nat): nat {
    if outcomes == [] then 0
    else
      match outcomes[0]
      case Took(n) => Least(n, most) + TakenBy(outcomes[1..], most)
      case Again => TakenBy(outcomes[1..], most)
      case _ => 0
  }

  /** The first loop goes on until a call fails: everything the calls take leaves, 43 packets at a time. */
  lemma {:induction false} SegmentedSendsAll(outcomes: seq<Outcome>, count: nat, sent: nat)
    requires sent <= count
    ensures Segmented(outcomes, count, sent) == Least(count, sent + TakenBy(outcomes, SEG_MAX))
    decreases |outcomes|
  {
    if sent < count && outcomes != [] {
      match outcomes[0] {
        case Took(n) => SegmentedSendsAll(outcomes[1..], count, sent + Least(n, Least(count - sent, SEG_MAX)));
        case Again => SegmentedSendsAll(outcomes[1..], count, sent);
        case _ =>
      }
    }
  }

  /** So does the second, without that limit. */
  lemma {:induction false} OneByOneSendsAll(outcomes: seq<Outcome>, count: nat, sent: nat)
    requires sent <= count
    ensures OneByOne(outcomes, count, sent).0 == Least(count, sent + TakenBy(outcomes, count))
    decreases |outcomes|
  {
    if sent < count && outcomes != [] {
      match outcomes[0] {
        case Took(n) => OneByOneSendsAll(outcomes[1..], count, sent + Least(n, count - sent));
        case Again => OneByOneSendsAll(outcomes[1..], count, sent);
        case _ =>
      }
    }
  }

  /**
   * What leaves: all that the calls of the first loop take, or, if that is nothing, all that those of the second take.
   */
  lemma AnswerSendsAll(gso: seq<Outcome>, mmsg: seq<Outcome>, count: nat)
    ensures Answer(gso, mmsg, count).0
      == Least(count, if TakenBy(gso, SEG_MAX) > 0 then TakenBy(gso, SEG_MAX) else TakenBy(mmsg, count))
  {
    SegmentedSendsAll(gso, count, 0);
    OneByOneSendsAll(mmsg, count, 0);
  }

  /** No segmentation offload, then one packet sent and a failed poll: true, with two packets of three lost. */
  lemma FailedPollIsSuccess()
    ensures Answer([Failed], [Took(1), Again, PollFailed], 3) == (1, true)
  {
  }

  /**
   * One turn of the first loop: a message of up to 43 packets, of which the kernel takes the first `taken` segments.
   */
  method SendMessage(k: Block, start: nat, count: nat, headers: bool, taken: nat, ghost ps: seq<seq<Byte>>,
                     ghost w: seq<Byte>)
    returns (cut: seq<seq<Byte>>)
    requires Reads(k, ps, w) && start + count <= |ps| && (!headers ==> k.hs == 0)
    ensures |cut| == Least(taken, Least(count, SEG_MAX)) && cut == ps[start..start + |cut|]
  {
    var segs := Least(count, SEG_MAX);
    var iovs := Message(k, start, segs, headers, ps, w);
    MessageCut(k, ps, w, start, start + segs);
    cut := Cut(Gathered(k, iovs), k.hs + k.bs)[..Least(taken, segs)];
  }

  /** The segments of a message are its packets. */
  lemma MessageCut(k: Block, ps: seq<seq<Byte>>, w: seq<Byte>, from: nat, end: nat)
    requires Reads(k, ps, w) && from <= end <= |ps|
    ensures Cut(Flat(ps[from..end]), k.hs + k.bs) == ps[from..end]
  {
    var part := ps[from..end];
    forall i | 0 <= i < |part|
      ensures |part[i]| == k.hs + k.bs
    {
      assert PacketReads(k, ps, from + i);
    }
    CutFlat(part, k.hs + k.bs);
  }

  method SendSegmented(k: Block, from: nat, count: nat, headers: bool, outcomes: seq<Outcome>,
                       ghost ps: seq<seq<Byte>>, ghost w: seq<Byte>)
    returns (sent: seq<seq<Byte>>, segIndex: nat)
    requires Reads(k, ps, w) && from + count <= |ps| && (!headers ==> k.hs == 0)
    ensures segIndex == Segmented(outcomes, count, 0) && sent == ps[from..from + segIndex]
  {
    sent, segIndex := [], 0;
    var call := 0;
    while segIndex < count && call < |outcomes| && (outcomes[call].Took? || outcomes[call].Again?)
      invariant segIndex <= count && sent == ps[from..from + segIndex]
      invariant call <= |outcomes| && Segmented(outcomes[call..], count, segIndex) == Segmented(outcomes, count, 0)
      decreases |outcomes| - call
    {
      assert outcomes[call..][1..] == outcomes[call + 1..];
      if outcomes[call].Took? {
        var cut := SendMessage(k, from + segIndex, count - segIndex, headers, outcomes[call].n, ps, w);
        sent := sent + cut;
        segIndex := segIndex + |cut|;
      }
      call := call + 1;
    }
  }

  /** One call of sendmmsg: a message for each packet that is left, of which the kernel takes the first `taken`. */
  method SendMessages(k: Block, start: nat, taken: nat, ghost ps: seq<seq<Byte>>, ghost w: seq<Byte>)
    returns (sent: seq<seq<Byte>>)
    requires Reads(k, ps, w) && start + taken <= |ps|
    ensures sent == ps[start..start + taken]
  {
    sent := [];
    var i := 0;
    while i < taken
      invariant i <= taken && sent == ps[start..start + i]
    {
      var header, payload := PacketIovs(k, start + i, ps, w);
      sent := sent + [IovBytes(k, header) + IovBytes(k, payload)];
      i := i + 1;
    }
  }

  /** The second loop. `done` is what the function then returns. */
  method SendEach(k: Block, from: nat, count: nat, outcomes: seq<Outcome>, ghost ps: seq<seq<Byte>>, ghost w: seq<Byte>)
    returns (sent: seq<seq<Byte>>, blocksSent: nat, done: bool)
    requires Reads(k, ps, w) && from + count <= |ps|
    ensures (blocksSent, done) == OneByOne(outcomes, count, 0) && sent == ps[from..from + blocksSent]
  {
    sent, blocksSent, done := [], 0, true;
    var call := 0;
    while blocksSent < count
      invariant blocksSent <= count && sent == ps[from..from + blocksSent]
      invariant call <= |outcomes| && OneByOne(outcomes[call..], count, blocksSent) == OneByOne(outcomes, count, 0)
      decreases |outcomes| - call
    {
      if call == |outcomes| {
        done := false;
        return;
      }
      assert outcomes[call..][1..] == outcomes[call + 1..];
      match outcomes[call] {
        case Took(n) =>
          var taken := Least(n, count - blocksSent);
          var more := SendMessages(k, from + blocksSent, taken, ps, w);
          sent := sent + more;
          blocksSent := blocksSent + taken;
        case Again =>
        case PollFailed =>
          return;
        case Failed =>
          done := false;
          return;
      }
      call := call + 1;
    }
  }

  /**
   * send_batch, where `gso` and `mmsg` are what the calls of the two loops answer: the packets that leave are the first
   * `n` of the range, in order and as they would be sent alone.
   */
  method SendBatch(k: Block, from: nat, count: nat, headers: bool, gso: seq<Outcome>, mmsg: seq<Outcome>)
    returns (sent: seq<seq<Byte>>, n: nat, done: bool)
    requires Valid(k) && from + count <= Total(k) && (!headers ==> k.hs == 0)
    ensures (n, done) == Answer(gso, mmsg, count) && sent == Packets(k)[from..from + n]
  {
    BlockReads(k);
    sent, n := SendSegmented(k, from, count, headers, gso, Packets(k), Both(k));
    if n != 0 {
      done := n >= count;
    } else {
      sent, n, done := SendEach(k, from, count, mmsg, Packets(k), Both(k));
    }
  }

  /** Each packet of a range, sent alone. */
  method SendAlone(k: Block, from: nat, count: nat) returns (sent: seq<seq<Byte>>)
    requires Valid(k) && from + count <= Total(k)
    ensures sent == Packets(k)[from..from + count]
  {
    sent := [];
    var y := 0;
    while y < count
      invariant y <= count && sent == Packets(k)[from..from + y]
    {
      PacketFound(k, from + y);
      assert Packets(k)[from + y] == Packet(k, from + y);
      sent := sent + [Packet(k, from + y)];
      y := y + 1;
    }
  }

  /**
   * One batch of a block. If send_batch reports a failure every packet is sent alone, and the `n` that had left already
   * leave twice.
   */
  method SendRange(k: Block, from: nat, count: nat, headers: bool, gso: seq<Outcome>, mmsg: seq<Outcome>)
    returns (sent: seq<seq<Byte>>, n: nat, done: bool)
    requires Valid(k) && from + count <= Total(k) && (!headers ==> k.hs == 0)
    ensures (n, done) == Answer(gso, mmsg, count)
    ensures sent == Packets(k)[from..from + n] + if done then [] else Packets(k)[from..from + count]
  {
    sent, n, done := SendBatch(k, from, count, headers, gso, mmsg);
    if !done {
      var each := SendAlone(k, from, count);
      sent := sent + each;
    }
  }
}
