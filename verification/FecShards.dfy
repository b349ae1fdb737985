/**
 * The memory layout of fec::encode in src/stream.cpp and of batched_send_info_t in
 * src/platform/common.h: data shards point into the frame, the padded last one and the
 * parity shards into a second buffer, and a batched send sees both as one run of bytes.
 */
module FecShards {
  import opened Arithmetic
  import opened Basics
  import opened Packetizer
  import opened FecBlocks
  import opened FecEncode

  datatype Ptr = InPayload(at: nat) | InShards(at: nat)

  datatype Buffer = Buffer(start: Ptr, size: nat)

  /** The block as shards of `bs` bytes, the last one filled up with zeros. */
  function DataShards(data: seq<Byte>, bs: nat): seq<seq<Byte>>
    requires bs > 0
    decreases |data|
  {
    if data == [] then []
    else if |data| <= bs then [data + Zeros(bs - |data|)]
    else [data[..bs]] + DataShards(data[bs..], bs)
  }

  /** The shard that starts at `off`. */
  function ShardAt(data: seq<Byte>, bs: nat, off: nat): seq<Byte>
    requires off <= |data|
  {
    if |data| - off < bs then data[off..] + Zeros(bs - (|data| - off)) else data[off..off + bs]
  }

  /** Shard `x` starts at x * bs. */
  lemma {:induction false} DataShardsAt(data: seq<Byte>, bs: nat, x: nat)
    requires bs > 0 && x < Pieces(|data|, bs)
    ensures |DataShards(data, bs)| == Pieces(|data|, bs)
    ensures x * bs < |data| && DataShards(data, bs)[x] == ShardAt(data, bs, x * bs)
    decreases |data|
  {
    PiecesOf(|data|, bs);
    PieceBounds(|data|, bs, x);
    DataShardsCount(data, bs);
    if |data| <= bs {
      assert x == 0 && data[0..] == data && data[0..|data|] == data;
      assert data + Zeros(0) == data;
    } else if x == 0 {
      assert data[0..bs] == data[..bs];
    } else {
      DataShardsAt(data[bs..], bs, x - 1);
      MulDist(x - 1, 1, bs);
      ShardAtShift(data, bs, (x - 1) * bs);
    }
  }

  lemma ShardAtShift(data: seq<Byte>, bs: nat, off: nat)
    requires bs + off <= |data|
    ensures ShardAt(data[bs..], bs, off) == ShardAt(data, bs, bs + off)
  {
    assert data[bs..][off..] == data[bs + off..];
  }

  lemma {:induction false} DataShardsCount(data: seq<Byte>, bs: nat)
    requires bs > 0
    ensures |DataShards(data, bs)| == Pieces(|data|, bs)
    decreases |data|
  {
    PiecesOf(|data|, bs);
    if |data| > bs {
      DataShardsCount(data[bs..], bs);
    }
  }

  function PadShards(size: nat, bs: nat): nat
    requires bs > 0
  {
    if size % bs != 0 then 1 else 0
  }

  /** Where shard `x` of a block of `size` bytes at `base` lives. */
  function ShardPtr(base: nat, size: nat, bs: nat, x: nat): Ptr
    requires bs > 0
  {
    if x < size / bs then InPayload(base + x * bs) else InShards((x - size / bs) * bs)
  }

  /** Where byte `offset` of the two buffers together lives, and how much of its buffer follows. */
  function BufferAt(buffers: seq<Buffer>, offset: nat): Option<Buffer> {
    if buffers == [] then None
    else if offset < buffers[0].size then
      var at := buffers[0].start.at + offset;
      Some(Buffer(if buffers[0].start.InPayload? then InPayload(at) else InShards(at), buffers[0].size - offset))
    else BufferAt(buffers[1..], offset - buffers[0].size)
  }

  /** buffer_for_payload_offset */
  method BufferForPayloadOffset(buffers: seq<Buffer>, offset0: nat) returns (b: Option<Buffer>)
    ensures b == BufferAt(buffers, offset0)
  {
    var offset: nat, i := offset0, 0;
    while i < |buffers|
      invariant i <= |buffers| && BufferAt(buffers, offset0) == BufferAt(buffers[i..], offset)
    {
      var desc := buffers[i];
      if offset < desc.size {
        var at := desc.start.at + offset;
        return Some(Buffer(if desc.start.InPayload? then InPayload(at) else InShards(at), desc.size - offset));
      } else {
        offset := offset - desc.size;
      }
      assert buffers[i..][1..] == buffers[i + 1..];
      i := i + 1;
    }
    return None;
  }

  function BuffersFor(base: nat, size: nat, bs: nat, parity: nat): seq<Buffer>
    requires bs > 0
  {
    [Buffer(InPayload(base), size / bs * bs), Buffer(InShards(0), (PadShards(size, bs) + parity) * bs)]
  }

  /** Batched and unbatched sends agree: shard `x` is found at offset x * bs, whole, and where data(x) points. */
  lemma BatchedIsUnbatched(base: nat, size: nat, bs: nat, parity: nat, x: nat)
    requires bs > 0 && x < Pieces(size, bs) + parity
    ensures var b := BufferAt(BuffersFor(base, size, bs, parity), x * bs);
      b.Some? && b.value.start == ShardPtr(base, size, bs, x) && b.value.size >= bs
  {
    var aligned, buffers := size / bs, BuffersFor(base, size, bs, parity);
    var extra := PadShards(size, bs) + parity;
    if x < aligned {
      MulMono(x + 1, aligned, bs);
      MulDist(x, 1, bs);
    } else {
      MulMono(aligned, x, bs);
      MulDist(x - aligned, aligned, bs);
      MulMono(x - aligned + 1, extra, bs);
      MulDist(x - aligned, 1, bs);
      assert BufferAt(buffers, x * bs) == BufferAt(buffers[1..], (x - aligned) * bs);
    }
  }

  // ----- fec::encode -----

  function ShardBytes(payload: seq<Byte>, shards: seq<Byte>, p: Ptr, bs: nat): seq<Byte>
    requires InBounds(|payload|, |shards|, p, bs)
  {
    if p.InPayload? then payload[p.at..p.at + bs] else shards[p.at..p.at + bs]
  }

  predicate InBounds(payload: nat, shards: nat, p: Ptr, bs: nat) {
    p.at + bs <= if p.InPayload? then payload else shards
  }

  /** The pointers of the whole data shards, which stay where they are in the frame. */
  method PointAtPayload(ptrs: array<Ptr>, aligned: nat, base: nat, bs: nat)
    requires aligned <= ptrs.Length
    modifies ptrs
    ensures forall x :: 0 <= x < aligned ==> ptrs[x] == InPayload(base + x * bs)
  {
    var x, next := 0, base;
    while x < aligned
      invariant x <= aligned && next == base + x * bs
      invariant forall k :: 0 <= k < x ==> ptrs[k] == InPayload(base + k * bs)
    {
      ptrs[x] := InPayload(next);
      MulDist(x, 1, bs);
      next := next + bs;
      x := x + 1;
    }
  }

  /** The pointers of the parity shards, behind the padded one if there is one. */
  method PointAtParity(ptrs: array<Ptr>, data: nat, parity: nat, offset: nat, bs: nat)
    requires data + parity <= ptrs.Length
    modifies ptrs
    ensures forall x :: 0 <= x < data ==> ptrs[x] == old(ptrs[x])
    ensures forall x :: data <= x < data + parity ==> ptrs[x] == InShards((offset + (x - data)) * bs)
  {
    var x := 0;
    while x < parity
      invariant x <= parity
      invariant forall k :: 0 <= k < data ==> ptrs[k] == old(ptrs[k])
      invariant forall k :: data <= k < data + x ==> ptrs[k] == InShards((offset + (k - data)) * bs)
    {
      ptrs[data + x] := InShards((offset + x) * bs);
      x := x + 1;
    }
  }

  /** The padded data shard: what is left of the payload, and zeros after its end. */
  method PadLast(payload: array<Byte>, next: nat, copyLen: nat, shards: array<Byte>, bs: nat)
    requires payload != shards && next + copyLen <= payload.Length && copyLen <= bs <= shards.Length
    modifies shards
    ensures shards[..bs] == payload[next..next + copyLen] + Zeros(bs - copyLen)
  {
    var k := 0;
    while k < copyLen
      invariant k <= copyLen && shards[..k] == payload[next..next + k]
    {
      shards[k] := payload[next + k];
      k := k + 1;
    }
    while k < bs
      invariant copyLen <= k <= bs && shards[..k] == payload[next..next + copyLen] + Zeros(k - copyLen)
    {
      shards[k] := 0;
      k := k + 1;
    }
  }

  /** The first lines of fec::encode: how many shards of each kind, and the percentage to advertise. */
  method CountShards(size: nat, bs: nat, f: nat, min: nat) returns (aligned: nat, pad: nat, c: Counts)
    requires bs > 0 && size > 0
    ensures aligned == size / bs && pad == PadShards(size, bs) && c.data == aligned + pad > 0
    ensures Pieces(size, bs) > 0 && c == CountsFor(Pieces(size, bs), f, min)
    ensures c.percentage == 0 ==> c.parity == 0
  {
    PiecesOf(size, bs);
    pad := if size % bs != 0 then 1 else 0;
    aligned := size / bs;
    var data := aligned + pad;
    var parity := (data * f + 99) / 100;
    var percentage := f;
    // too few for the client: its minimum counts, and the percentage follows from it
    if parity < min && percentage != 0 {
      parity := min;
      percentage := (100 * parity) / data;
    }
    RaisedIsNotZero(data, f, min);
    c := Counts(data, parity, percentage);
  }

  /** fec::encode on the block of `size` bytes at `base`; parity bytes keep arbitrary values. */
  method Encode(payload: array<Byte>, base: nat, size: nat, bs: nat, f: nat, min: nat)
    returns (c: Counts, shards: array<Byte>, ptrs: array<Ptr>, buffers: seq<Buffer>)
    requires bs > 0 && size > 0 && base + size <= payload.Length
    ensures fresh(shards) && fresh(ptrs)
    ensures Pieces(size, bs) > 0 && c == CountsFor(Pieces(size, bs), f, min)
    ensures ptrs.Length == c.data + c.parity && shards.Length == (PadShards(size, bs) + c.parity) * bs
    ensures forall x :: 0 <= x < ptrs.Length ==> ptrs[x] == ShardPtr(base, size, bs, x)
    ensures buffers == BuffersFor(base, size, bs, c.parity)
    ensures size % bs != 0 ==> bs <= shards.Length && shards[..bs] == PaddedTail(payload[base..base + size], bs)
  {
    var aligned, pad;
    aligned, pad, c := CountShards(size, bs, f, min);
    BlockLayout(size, bs, pad + c.parity);
    var alignedBytes := aligned * bs;
    shards := new Byte[(pad + c.parity) * bs];
    if pad == 1 {
      PadLast(payload, base + alignedBytes, size - alignedBytes, shards, bs);
      assert payload[base..base + size][alignedBytes..] == payload[base + alignedBytes..base + size];
    }
    ptrs := Point(c, aligned, pad, base, size, bs);
    buffers := [Buffer(InPayload(base), alignedBytes), Buffer(InShards(0), shards.Length)];
  }

  method Point(c: Counts, aligned: nat, pad: nat, base: nat, size: nat, bs: nat) returns (ptrs: array<Ptr>)
    requires bs > 0 && aligned == size / bs && pad <= 1 && c.data == aligned + pad
    requires c.percentage == 0 ==> c.parity == 0
    ensures fresh(ptrs) && ptrs.Length == c.data + c.parity
    ensures forall x :: 0 <= x < ptrs.Length ==> ptrs[x] == ShardPtr(base, size, bs, x)
  {
    ptrs := new Ptr[c.data + c.parity];
    PointAtPayload(ptrs, aligned, base, bs);
    // shard 0 of the second buffer is the padded one
    if pad == 1 {
      ptrs[aligned] := InShards(0);
    }
    if c.percentage != 0 {
      PointAtParity(ptrs, c.data, c.parity, pad, bs);
    }
    forall x | 0 <= x < ptrs.Length
      ensures ptrs[x] == ShardPtr(base, size, bs, x)
    {
      assert x >= c.data ==> pad + (x - c.data) == x - aligned;
    }
  }

  /** The bytes after the last whole shard, filled up with zeros. */
  function PaddedTail(block: seq<Byte>, bs: nat): seq<Byte>
    requires bs > 0
  {
    BlockLayout(|block|, bs, 0);
    block[|block| / bs * bs..] + Zeros(bs - |block| % bs)
  }

  /** What is left behind the whole shards is shorter than a shard, and a second buffer that is not empty holds one. */
  lemma BlockLayout(size: nat, bs: nat, extra: nat)
    requires bs > 0
    ensures size / bs * bs <= size && size - size / bs * bs == size % bs < bs
    ensures extra > 0 ==> bs <= extra * bs
  {
    DivModDef(size, bs);
    if extra > 0 {
      MulMono(1, extra, bs);
    }
  }

  /** Through its pointer, every data shard of an encoded block reads as the block cut into zero-padded shards. */
  lemma EncodedShards(payload: seq<Byte>, shards: seq<Byte>, base: nat, size: nat, bs: nat, x: nat)
    requires bs > 0 && base + size <= |payload| && x < Pieces(size, bs)
    requires size % bs != 0 ==> bs <= |shards| && shards[..bs] == PaddedTail(payload[base..base + size], bs)
    ensures InBounds(|payload|, |shards|, ShardPtr(base, size, bs, x), bs)
    ensures |DataShards(payload[base..base + size], bs)| == Pieces(size, bs)
    ensures ShardBytes(payload, shards, ShardPtr(base, size, bs, x), bs)
      == DataShards(payload[base..base + size], bs)[x]
  {
    var block := payload[base..base + size];
    DataShardsAt(block, bs, x);
    BlockLayout(size, bs, 0);
    if x < size / bs {
      MulMono(x + 1, size / bs, bs);
      MulDist(x, 1, bs);
      SliceOfSlice(payload, base, base + size, x * bs, x * bs + bs);
    } else {
      assert x == size / bs;
      TailShard(block, bs, size / bs * bs);
    }
  }

  lemma TailShard(block: seq<Byte>, bs: nat, off: nat)
    requires bs > 0 && |block| % bs != 0 && off == |block| / bs * bs
    ensures off <= |block| && PaddedTail(block, bs) == ShardAt(block, bs, off)
  {
    BlockLayout(|block|, bs, 0);
  }
}
