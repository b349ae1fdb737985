/**
 * One frame through the whole packetizer of src/stream.cpp: slices, FEC blocks, headers written in
 * place, shards; and the receiver that undoes it. Headers are `h` opaque bytes per packet.
 */
module Framing {
  import opened Arithmetic
  import opened Basics
  import opened Packetizer
  import opened FecBlocks
  import opened FecEncode
  import opened FecShards

  /** How many frame bytes the final packet carries. */
  function TrueLastLen(n: nat, p: nat): nat
    requires p > 0
  {
    if n % p == 0 then p else n % p
  }

  /** lastPayloadLen of the frame header, a 16-bit field, which is also what is compared to zero. */
  function LastPayloadLen(n: nat, p: nat): nat
    requires p > 0
  {
    if n % p % 0x10000 == 0 then p % 0x10000 else n % p % 0x10000
  }

  /** The receiver: drops the header of every data shard and cuts the final one to `last` bytes. */
  function Depacketize(shards: seq<seq<Byte>>, h: nat, last: nat): seq<Byte>
    requires forall i :: 0 <= i < |shards| ==> h + last <= |shards[i]|
  {
    if shards == [] then []
    else if |shards| == 1 then shards[0][h..h + last]
    else shards[0][h..] + Depacketize(shards[1..], h, last)
  }

  /**
   * Undone: the data shards of an interleaved frame give back the frame, and what follows it in the last one is zero.
   */
  ghost predicate Undone(shards: seq<seq<Byte>>, h: nat, p: nat, frame: seq<Byte>)
    requires p > 0
  {
    var last := TrueLastLen(|frame|, p);
    && last <= p && shards != [] && (forall i :: 0 <= i < |shards| ==> |shards[i]| == h + p)
    && Depacketize(shards, h, last) == frame
    && shards[|shards| - 1][h + last..] == Zeros(p - last)
  }

  lemma UndoneFinal(h: nat, p: nat, frame: seq<Byte>)
    requires p > 0 && 0 < |frame| <= p
    ensures Undone([Zeros(h) + frame + Zeros(p - |frame|)], h, p, frame)
  {
    DivModSmall(|frame|, p);
    var shard := Zeros(h) + frame + Zeros(p - |frame|);
    assert shard[h..h + |frame|] == frame;
    assert shard[h + |frame|..] == Zeros(p - |frame|);
  }

  lemma UndoneMore(h: nat, p: nat, frame: seq<Byte>, shards: seq<seq<Byte>>)
    requires 0 < p < |frame| && Undone(shards, h, p, frame[p..])
    ensures Undone([Zeros(h) + frame[..p]] + shards, h, p, frame)
  {
    var first := Zeros(h) + frame[..p];
    DivModShift(|frame| - p, p, 1);
    DepacketizeMore(first, shards, h, TrueLastLen(|frame|, p));
    assert first[h..] == frame[..p] && frame[..p] + frame[p..] == frame;
    assert ([first] + shards)[|shards|] == shards[|shards| - 1];
  }

  lemma DepacketizeMore(first: seq<Byte>, shards: seq<seq<Byte>>, h: nat, last: nat)
    requires shards != [] && |first| >= h + last && forall i :: 0 <= i < |shards| ==> |shards[i]| >= h + last
    ensures Depacketize([first] + shards, h, last) == first[h..] + Depacketize(shards, h, last)
  {
    assert ([first] + shards)[1..] == shards;
  }

  lemma {:induction false} InterleavedShards(h: nat, p: nat, frame: seq<Byte>)
    requires p > 0 && frame != []
    ensures Undone(DataShards(Interleave(h, p, frame), h + p), h, p, frame)
    decreases |frame|
  {
    var img, bs := Interleave(h, p, frame), h + p;
    if |frame| <= p {
      UndoneFinal(h, p, frame);
      assert DataShards(img, bs) == [img + Zeros(bs - |img|)];
    } else {
      var rest := Interleave(h, p, frame[p..]);
      InterleavedShards(h, p, frame[p..]);
      assert rest != [];
      assert img[..bs] == Zeros(h) + frame[..p] && img[bs..] == rest;
      UndoneMore(h, p, frame, DataShards(rest, bs));
    }
  }

  lemma DivModSmall(n: nat, p: nat)
    requires 0 < n <= p
    ensures TrueLastLen(n, p) == n
  {
    if n == p {
      DivModIs(n, p, 1, 0);
    } else {
      DivModIs(n, p, 0, n);
    }
  }

  /** What the network may do to headers is invisible to the receiver. */
  ghost predicate SamePayloads(a: seq<seq<Byte>>, b: seq<seq<Byte>>, h: nat) {
    |a| == |b| && forall i :: 0 <= i < |a| ==> |a[i]| == |b[i]| >= h && a[i][h..] == b[i][h..]
  }

  lemma {:induction false} HeadersDoNotMatter(a: seq<seq<Byte>>, b: seq<seq<Byte>>, h: nat, last: nat)
    requires SamePayloads(a, b, h) && forall i :: 0 <= i < |a| ==> h + last <= |a[i]|
    ensures Depacketize(a, h, last) == Depacketize(b, h, last)
  {
    if a != [] {
      assert a[0][h..h + last] == a[0][h..][..last] && b[0][h..h + last] == b[0][h..][..last];
      HeadersDoNotMatter(a[1..], b[1..], h, last);
    }
  }

  // ----- headers written in place -----

  /** The two images agree wherever no header is. */
  ghost predicate SameOutsideHeaders(a: seq<Byte>, b: seq<Byte>, h: nat, bs: nat)
    requires bs > 0
  {
    |a| == |b| && forall i :: 0 <= i < |a| && i % bs >= h ==> a[i] == b[i]
  }

  lemma StampedShard(a: seq<Byte>, b: seq<Byte>, h: nat, bs: nat, x: nat)
    requires 0 < h < bs && SameOutsideHeaders(a, b, h, bs) && x * bs <= |a|
    ensures |ShardAt(a, bs, x * bs)| == bs == |ShardAt(b, bs, x * bs)|
    ensures ShardAt(a, bs, x * bs)[h..] == ShardAt(b, bs, x * bs)[h..]
  {
    var off := x * bs;
    var s, t := ShardAt(a, bs, off), ShardAt(b, bs, off);
    forall k | h <= k < bs
      ensures s[k] == t[k]
    {
      if off + k < |a| {
        DivModIs(off + k, bs, x, k);
        assert s[k] == a[off + k] && t[k] == b[off + k];
      }
    }
  }

  /**
   * A block that starts on a packet boundary, and ends on one or with the frame, is cut into the shards of the frame at
   * its place.
   */
  lemma BlockIsPart(img: seq<Byte>, bs: nat, first: nat, end: nat, x: nat)
    requires bs > 0 && first * bs < end <= |img| && (end == |img| || end % bs == 0)
    requires x < Pieces(end - first * bs, bs)
    ensures first + x < Pieces(|img|, bs)
    ensures (first + x) * bs == first * bs + x * bs < end
    ensures ShardAt(img[first * bs..end], bs, x * bs) == ShardAt(img, bs, (first + x) * bs)
  {
    BlockPlace(|img|, bs, first, end, x);
    SubShard(img, bs, first * bs, end, x * bs);
  }

  /** Where shard `x` of such a block lies in the frame. */
  lemma BlockPlace(size: nat, bs: nat, first: nat, end: nat, x: nat)
    requires bs > 0 && first * bs < end <= size && (end == size || end % bs == 0)
    requires x < Pieces(end - first * bs, bs)
    ensures first + x < Pieces(size, bs) && (first + x) * bs < end
    ensures (first + x) * bs == first * bs + x * bs && (end == size || first * bs + x * bs + bs <= end)
  {
    PieceBounds(end - first * bs, bs, x);
    MulDist(first, x, bs);
    PiecesCeil(size, bs);
    CeilAtMost(size, bs, first + x);
    if end != size {
      WholeBlock(end, bs, first + x);
    }
  }

  lemma SubShard(img: seq<Byte>, bs: nat, start: nat, end: nat, off: nat)
    requires start + off <= end <= |img| && (end == |img| || start + off + bs <= end)
    ensures ShardAt(img[start..end], bs, off) == ShardAt(img, bs, start + off)
  {
    if start + off + bs <= end {
      SliceOfSlice(img, start, end, off, off + bs);
    } else {
      SliceOfSlice(img, start, end, off, end - start);
    }
  }

  lemma WholeBlock(end: nat, bs: nat, x: nat)
    requires bs > 0 && end % bs == 0 && x * bs < end
    ensures x * bs + bs <= end
  {
    DivModDef(end, bs);
    DivLess(x * bs, bs, end / bs);
    DivModIs(x * bs, bs, x, 0);
    MulMono(x + 1, end / bs, bs);
    MulDist(x, 1, bs);
  }

  // ----- the frame as the code handles it -----

  /** fec_blocks: the start and end of each FEC block, and the percentage that will be used. */
  method SplitBlocks(size: nat, bs: nat, f: nat) returns (used: nat, blocks: seq<(nat, nat)>)
    requires size > 0 && bs >= 3 && 1 <= f <= 255
    ensures var p := PlanFor(size, bs, f);
      && used == p.f && |blocks| == p.count
      && forall x :: 0 <= x < p.count ==> blocks[x] == (BlockStart(p, x), BlockEnd(p, size, x))
    ensures used == f <==> size <= 4 * (MaxDataShards(f) * bs)
    ensures used == f ==> forall k: nat :: |blocks| <= k <==> size <= k * (MaxDataShards(f) * bs)
    ensures used != f ==> used == 0 && |blocks| == 4
  {
    ghost var plan := PlanFor(size, bs, f);
    SomeBlockNeeded(size, bs, f);
    MaxDataShardsRange(f);
    MulNonZero(MaxDataShards(f), bs);
    var maxData := DATA_SHARDS_MAX * 100 / (100 + f) * bs;
    var needed := (size + (maxData - 1)) / maxData;
    used := f;
    // more blocks than the protocol can number: no FEC for this frame
    if needed > MAX_FEC_BLOCKS {
      used, needed := 0, MAX_FEC_BLOCKS;
    }
    var alignedSize := (size / needed + (bs - 1)) / bs * bs;
    assert plan == Plan(needed, used, alignedSize);
    FecStaysOn(size, bs, f);
    blocks := [];
    var x := 0;
    while x < needed
      invariant x <= needed && |blocks| == x
      invariant forall k :: 0 <= k < x ==> blocks[k] == (BlockStart(plan, k), BlockEnd(plan, size, k))
    {
      BlocksOk(size, bs, f, x);
      if x == needed - 1 {
        // whatever is left, which may be more than the others have
        blocks := blocks + [(x * alignedSize, size)];
      } else {
        // up to where block x + 1 begins
        MulDist(x, 1, alignedSize);
        blocks := blocks + [(x * alignedSize, x * alignedSize + alignedSize)];
      }
      x := x + 1;
    }
  }

  lemma SameTransitive(a: seq<Byte>, b: seq<Byte>, c: seq<Byte>, h: nat, bs: nat)
    requires bs > 0 && SameOutsideHeaders(a, b, h, bs) && SameOutsideHeaders(b, c, h, bs)
    ensures SameOutsideHeaders(a, c, h, bs)
  {
  }

  /** Writes one header over the first bytes of the packet that starts at `at`. */
  method WriteHeader(mem: array<Byte>, at: nat, header: seq<Byte>, bs: nat)
    requires at + |header| <= mem.Length && |header| <= bs && bs > 0 && at % bs == 0
    modifies mem
    ensures SameOutsideHeaders(mem[..], old(mem[..]), |header|, bs)
    ensures mem[at..at + |header|] == header
  {
    ghost var before := mem[..];
    Copy(header, mem, at);
    forall i | 0 <= i < mem.Length && i % bs >= |header|
      ensures mem[..][i] == before[i]
    {
      if at <= i < at + |header| {
        DivModDef(at, bs);
        DivModIs(i, bs, at / bs, i - at);
      }
    }
  }

  /** The first header pass over a block: one header in front of each packet, in place. */
  method StampBlock(img: array<Byte>, start: nat, end: nat, h: nat, bs: nat, header: nat -> seq<Byte>)
    requires 0 < h < bs && start <= end <= img.Length && start % bs == 0
    requires forall x :: 0 <= x < Pieces(end - start, bs) ==> start + x * bs + h <= end
    requires forall x :: |header(x)| == h
    modifies img
    ensures SameOutsideHeaders(img[..], old(img[..]), h, bs)
  {
    var packets := (end - start) / bs + if (end - start) % bs != 0 then 1 else 0;
    var x := 0;
    while x < packets
      invariant x <= packets && SameOutsideHeaders(img[..], old(img[..]), h, bs)
    {
      ghost var before := img[..];
      DivModDef(start, bs);
      DivModShift(x * bs, bs, start / bs);
      DivModIs(x * bs, bs, x, 0);
      WriteHeader(img, start + x * bs, header(x), bs);
      SameTransitive(img[..], before, old(img[..]), h, bs);
      x := x + 1;
    }
  }

  /** The second header pass: over every shard of a block through its pointer, in place in either buffer. */
  method StampShards(img: array<Byte>, shards: array<Byte>, ptrs: seq<Ptr>, h: nat, bs: nat, header: nat -> seq<Byte>)
    requires 0 < h < bs && img != shards
    requires forall x :: 0 <= x < |ptrs| ==> ptrs[x].at % bs == 0 && InBounds(img.Length, shards.Length, ptrs[x], bs)
    requires forall x :: |header(x)| == h
    modifies img, shards
    ensures SameOutsideHeaders(img[..], old(img[..]), h, bs)
    ensures SameOutsideHeaders(shards[..], old(shards[..]), h, bs)
  {
    var x := 0;
    while x < |ptrs|
      invariant x <= |ptrs|
      invariant SameOutsideHeaders(img[..], old(img[..]), h, bs)
      invariant SameOutsideHeaders(shards[..], old(shards[..]), h, bs)
    {
      StampShard(img, shards, ptrs[x], h, bs, header(x), old(img[..]), old(shards[..]));
      x := x + 1;
    }
  }

  method StampShard(img: array<Byte>, shards: array<Byte>, ptr: Ptr, h: nat, bs: nat, header: seq<Byte>,
                    ghost img0: seq<Byte>, ghost shards0: seq<Byte>)
    requires 0 < h == |header| < bs && img != shards
    requires ptr.at % bs == 0 && InBounds(img.Length, shards.Length, ptr, h)
    requires SameOutsideHeaders(img[..], img0, h, bs) && SameOutsideHeaders(shards[..], shards0, h, bs)
    modifies img, shards
    ensures SameOutsideHeaders(img[..], img0, h, bs) && SameOutsideHeaders(shards[..], shards0, h, bs)
  {
    ghost var before, before' := img[..], shards[..];
    if ptr.InPayload? {
      WriteHeader(img, ptr.at, header, bs);
      SameTransitive(img[..], before, img0, h, bs);
      assert shards[..] == before';
    } else {
      WriteHeader(shards, ptr.at, header, bs);
      SameTransitive(shards[..], before', shards0, h, bs);
      assert img[..] == before;
    }
  }

  // ----- one block, and the whole frame -----

  /** The last packet is whole or at least has room for its header. */
  predicate Roomy(end: nat, h: nat, bs: nat)
    requires bs > 0
  {
    end % bs == 0 || end % bs >= h
  }

  lemma {:induction false} InterleaveRoomy(h: nat, p: nat, frame: seq<Byte>)
    requires p > 0
    ensures Roomy(|Interleave(h, p, frame)|, h, h + p)
    decreases |frame|
  {
    if frame != [] && |frame| <= p {
      if |frame| == p {
        DivModIs(h + p, h + p, 1, 0);
      } else {
        DivModIs(h + |frame|, h + p, 0, h + |frame|);
      }
    } else if frame != [] {
      InterleaveRoomy(h, p, frame[p..]);
      DivModShift(|Interleave(h, p, frame[p..])|, h + p, 1);
    }
  }

  lemma PacketHasRoom(start: nat, end: nat, h: nat, bs: nat, x: nat)
    requires 0 < h < bs && start <= end && start % bs == 0 && Roomy(end, h, bs) && x < Pieces(end - start, bs)
    ensures start + x * bs + h <= end
  {
    var size := end - start;
    PieceBounds(size, bs, x);
    DivModDef(start, bs);
    DivModShift(size, bs, start / bs);
    if x + 1 < Pieces(size, bs) {
      MulDist(x, 1, bs);
    } else {
      var r := size - x * bs;
      MulDist(x, 1, bs);
      if r == bs {
      } else {
        DivModIs(size, bs, x, r);
      }
    }
  }

  lemma PtrOk(base: nat, size: nat, bs: nat, payload: nat, parity: nat, h: nat, x: nat)
    requires 0 < h < bs && base % bs == 0 && base + size <= payload && x < Pieces(size, bs) + parity
    ensures ShardPtr(base, size, bs, x).at % bs == 0
    ensures InBounds(payload, (PadShards(size, bs) + parity) * bs, ShardPtr(base, size, bs, x), bs)
  {
    var aligned, extra := size / bs, PadShards(size, bs) + parity;
    BlockLayout(size, bs, extra);
    if x < aligned {
      DivModDef(base, bs);
      MulDist(base / bs, x, bs);
      DivModIs(base + x * bs, bs, base / bs + x, 0);
      MulMono(x + 1, aligned, bs);
      MulDist(x, 1, bs);
    } else {
      DivModIs((x - aligned) * bs, bs, x - aligned, 0);
      MulMono(x - aligned + 1, extra, bs);
      MulDist(x - aligned, 1, bs);
    }
  }

  lemma SlicePastHeader(a: seq<Byte>, b: seq<Byte>, at: nat, h: nat, bs: nat)
    requires 0 < h < bs && SameOutsideHeaders(a, b, h, bs) && at + bs <= |a| && at % bs == 0
    ensures a[at..at + bs][h..] == b[at..at + bs][h..]
  {
    DivModDef(at, bs);
    forall i | at + h <= i < at + bs
      ensures a[i] == b[i]
    {
      DivModIs(i, bs, at / bs, i - at);
    }
    SliceOfSlice(a, at, at + bs, h, bs);
    SliceOfSlice(b, at, at + bs, h, bs);
    assert a[at + h..at + bs] == b[at + h..at + bs];
  }

  /** Before the second header pass, data shard `x` of a block is packet first + x of the image. */
  lemma EncodedIsPacket(img: seq<Byte>, shards: seq<Byte>, first: nat, base: nat, end: nat, bs: nat, x: nat)
    requires bs > 0 && base == first * bs < end <= |img| && (end == |img| || end % bs == 0)
    requires x < Pieces(end - base, bs)
    requires (end - base) % bs != 0 ==> bs <= |shards| && shards[..bs] == PaddedTail(img[base..end], bs)
    ensures InBounds(|img|, |shards|, ShardPtr(base, end - base, bs, x), bs) && (first + x) * bs < |img|
    ensures ShardBytes(img, shards, ShardPtr(base, end - base, bs, x), bs) == ShardAt(img, bs, (first + x) * bs)
  {
    assert img[base..base + (end - base)] == img[base..end];
    EncodedShards(img, shards, base, end - base, bs, x);
    DataShardsAt(img[base..end], bs, x);
    BlockIsPart(img, bs, first, end, x);
  }

  lemma StampedBytes(img: seq<Byte>, shards: seq<Byte>, img': seq<Byte>, shards': seq<Byte>, p: Ptr, h: nat, bs: nat)
    requires 0 < h < bs && p.at % bs == 0 && InBounds(|img|, |shards|, p, bs)
    requires SameOutsideHeaders(img', img, h, bs) && SameOutsideHeaders(shards', shards, h, bs)
    ensures ShardBytes(img', shards', p, bs)[h..] == ShardBytes(img, shards, p, bs)[h..]
  {
    if p.InPayload? {
      SlicePastHeader(img', img, p.at, h, bs);
    } else {
      SlicePastHeader(shards', shards, p.at, h, bs);
    }
  }

  /** Packet `k` of the image, padded if it is the last. */
  ghost function Packet(plain: seq<Byte>, bs: nat, k: nat): seq<Byte> {
    if k * bs <= |plain| then ShardAt(plain, bs, k * bs) else []
  }

  /** A shard that carries, behind its header, what packet `k` of the image carries. */
  ghost predicate Carries(shard: seq<Byte>, plain: seq<Byte>, k: nat, h: nat, bs: nat) {
    |shard| == bs >= h && |Packet(plain, bs, k)| == bs && shard[h..] == Packet(plain, bs, k)[h..]
  }

  /** What is sent for data shard `x` of a block carries the frame bytes of packet first + x. */
  lemma SentShard(img: seq<Byte>, shards: seq<Byte>, img': seq<Byte>, shards': seq<Byte>, plain: seq<Byte>,
                  first: nat, base: nat, end: nat, h: nat, bs: nat, x: nat)
    requires 0 < h < bs && base == first * bs < end <= |img| && (end == |img| || end % bs == 0)
    requires x < Pieces(end - base, bs)
    requires SameOutsideHeaders(img, plain, h, bs) && SameOutsideHeaders(img', img, h, bs)
    requires SameOutsideHeaders(shards', shards, h, bs)
    requires (end - base) % bs != 0 ==> bs <= |shards| && shards[..bs] == PaddedTail(img[base..end], bs)
    requires InBounds(|img'|, |shards'|, ShardPtr(base, end - base, bs, x), bs)
    ensures Carries(ShardBytes(img', shards', ShardPtr(base, end - base, bs, x), bs), plain, first + x, h, bs)
  {
    EncodedIsPacket(img, shards, first, base, end, bs, x);
    StampedShard(img, plain, h, bs, first + x);
    DivModIs(base, bs, first, 0);
    PtrAligned(base, end - base, bs, x);
    StampedBytes(img, shards, img', shards', ShardPtr(base, end - base, bs, x), h, bs);
  }

  lemma PtrAligned(base: nat, size: nat, bs: nat, x: nat)
    requires bs > 0 && base % bs == 0
    ensures ShardPtr(base, size, bs, x).at % bs == 0
  {
    if x < size / bs {
      DivModDef(base, bs);
      MulDist(base / bs, x, bs);
      DivModIs(base + x * bs, bs, base / bs + x, 0);
    } else {
      DivModIs((x - size / bs) * bs, bs, x - size / bs, 0);
    }
  }

  ghost predicate Carry(sent: seq<seq<Byte>>, plain: seq<Byte>, from: nat, h: nat, bs: nat) {
    forall x :: 0 <= x < |sent| ==> Carries(sent[x], plain, from + x, h, bs)
  }

  /**
   * One turn of the loop over FEC blocks: headers, fec::encode, headers again; returns the data shards as they are
   * sent.
   */
  method SendBlock(img: array<Byte>, ghost plain: seq<Byte>, ghost first: nat, start: nat, end: nat, h: nat, bs: nat,
                   f: nat, min: nat, header: nat -> seq<Byte>, header': nat -> seq<Byte>)
    returns (sent: seq<seq<Byte>>, c: Counts)
    requires 0 < h < bs && start == first * bs < end <= img.Length
    requires (end == img.Length || end % bs == 0) && Roomy(end, h, bs)
    requires SameOutsideHeaders(img[..], plain, h, bs)
    requires (forall x :: |header(x)| == h) && forall x :: |header'(x)| == h
    modifies img
    ensures SameOutsideHeaders(img[..], plain, h, bs)
    ensures |sent| == Pieces(end - start, bs) > 0 && Carry(sent, plain, first, h, bs) && c == CountsFor(|sent|, f, min)
  {
    DivModIs(start, bs, first, 0);
    forall x | 0 <= x < Pieces(end - start, bs)
      ensures start + x * bs + h <= end
    {
      PacketHasRoom(start, end, h, bs, x);
    }
    ghost var img0 := img[..];
    StampBlock(img, start, end, h, bs, header);
    SameTransitive(img[..], img0, plain, h, bs);
    sent, c := EncodeAndStamp(img, plain, first, start, end, h, bs, f, min, header');
  }

  /** The result of fec::encode for packets `first` on, as the second header pass finds it. */
  ghost predicate EncodedBlock(img: seq<Byte>, shards: seq<Byte>, pointers: seq<Ptr>, data: nat, first: nat, start: nat,
                               end: nat, bs: nat) {
    && bs > 0 && start == first * bs < end <= |img| && (end == |img| || end % bs == 0)
    && data == Pieces(end - start, bs) <= |pointers|
    && (forall x :: 0 <= x < |pointers| ==>
          pointers[x] == ShardPtr(start, end - start, bs, x) && pointers[x].at % bs == 0
            && InBounds(|img|, |shards|, pointers[x], bs))
    && ((end - start) % bs != 0 ==> bs <= |shards| && shards[..bs] == PaddedTail(img[start..end], bs))
  }

  method EncodeBlock(img: array<Byte>, ghost first: nat, start: nat, end: nat, h: nat, bs: nat, f: nat, min: nat)
    returns (shards: array<Byte>, pointers: seq<Ptr>, c: Counts)
    requires 0 < h < bs && start == first * bs < end <= img.Length && start % bs == 0
    requires end == img.Length || end % bs == 0
    ensures fresh(shards) && EncodedBlock(img[..], shards[..], pointers, c.data, first, start, end, bs)
    ensures c.data > 0 && c == CountsFor(c.data, f, min) && |pointers| == c.data + c.parity
  {
    var ptrs, buffers;
    c, shards, ptrs, buffers := Encode(img, start, end - start, bs, f, min);
    pointers := ptrs[..];
    forall x | 0 <= x < |pointers|
      ensures pointers[x] == ShardPtr(start, end - start, bs, x)
      ensures pointers[x].at % bs == 0 && InBounds(img.Length, shards.Length, pointers[x], bs)
    {
      PtrOk(start, end - start, bs, img.Length, c.parity, h, x);
    }
    assert img[..][start..end] == img[start..start + (end - start)];
  }

  lemma SentOne(img: seq<Byte>, shards: seq<Byte>, img': seq<Byte>, shards': seq<Byte>, pointers: seq<Ptr>, data: nat,
                plain: seq<Byte>, first: nat, start: nat, end: nat, h: nat, bs: nat, x: nat)
    requires 0 < h < bs && EncodedBlock(img, shards, pointers, data, first, start, end, bs) && x < data
    requires SameOutsideHeaders(img, plain, h, bs) && SameOutsideHeaders(img', img, h, bs)
    requires SameOutsideHeaders(shards', shards, h, bs)
    requires InBounds(|img'|, |shards'|, pointers[x], bs)
    ensures Carries(ShardBytes(img', shards', pointers[x], bs), plain, first + x, h, bs)
  {
    assert pointers[x] == ShardPtr(start, end - start, bs, x);
    SentShard(img, shards, img', shards', plain, first, start, end, h, bs, x);
  }

  /** All data shards of a block, once stamped, carry their packets. */
  lemma SentBlock(img: seq<Byte>, shards: seq<Byte>, img': seq<Byte>, shards': seq<Byte>, pointers: seq<Ptr>, data: nat,
                  plain: seq<Byte>, first: nat, start: nat, end: nat, h: nat, bs: nat, sent: seq<seq<Byte>>)
    requires 0 < h < bs && EncodedBlock(img, shards, pointers, data, first, start, end, bs)
    requires SameOutsideHeaders(img, plain, h, bs) && SameOutsideHeaders(img', img, h, bs)
    requires SameOutsideHeaders(shards', shards, h, bs)
    requires |sent| == data && forall x :: 0 <= x < data ==>
      InBounds(|img'|, |shards'|, pointers[x], bs) && sent[x] == ShardBytes(img', shards', pointers[x], bs)
    ensures Carry(sent, plain, first, h, bs)
  {
    forall x | 0 <= x < |sent|
      ensures Carries(sent[x], plain, first + x, h, bs)
    {
      SentOne(img, shards, img', shards', pointers, data, plain, first, start, end, h, bs, x);
    }
  }

  method EncodeAndStamp(img: array<Byte>, ghost plain: seq<Byte>, ghost first: nat, start: nat, end: nat, h: nat,
                        bs: nat, f: nat, min: nat, header: nat -> seq<Byte>)
    returns (sent: seq<seq<Byte>>, c: Counts)
    requires 0 < h < bs && start == first * bs < end <= img.Length && start % bs == 0
    requires end == img.Length || end % bs == 0
    requires SameOutsideHeaders(img[..], plain, h, bs)
    requires forall x :: |header(x)| == h
    modifies img
    ensures SameOutsideHeaders(img[..], plain, h, bs)
    ensures |sent| == Pieces(end - start, bs) > 0 && Carry(sent, plain, first, h, bs) && c == CountsFor(|sent|, f, min)
  {
    var shards, pointers;
    shards, pointers, c := EncodeBlock(img, first, start, end, h, bs, f, min);
    ghost var img1, shards1 := img[..], shards[..];
    StampShards(img, shards, pointers, h, bs, header);
    SameTransitive(img[..], img1, plain, h, bs);
    sent := CollectData(img, shards, pointers, c.data, bs);
    SentBlock(img1, shards1, img[..], shards[..], pointers, c.data, plain, first, start, end, h, bs, sent);
  }

  method CollectData(img: array<Byte>, shards: array<Byte>, pointers: seq<Ptr>, data: nat, bs: nat)
    returns (sent: seq<seq<Byte>>)
    requires data <= |pointers| && forall x :: 0 <= x < data ==> InBounds(img.Length, shards.Length, pointers[x], bs)
    ensures |sent| == data
    ensures forall x :: 0 <= x < data ==> sent[x] == ShardBytes(img[..], shards[..], pointers[x], bs)
  {
    sent := [];
    var x := 0;
    while x < data
      invariant x <= data && |sent| == x
      invariant forall k :: 0 <= k < x ==> sent[k] == ShardBytes(img[..], shards[..], pointers[k], bs)
    {
      var p := pointers[x];
      sent := sent + [if p.InPayload? then img[p.at..p.at + bs] else shards[p.at..p.at + bs]];
      x := x + 1;
    }
  }

  lemma CarryConcat(a: seq<seq<Byte>>, b: seq<seq<Byte>>, plain: seq<Byte>, h: nat, bs: nat)
    requires Carry(a, plain, 0, h, bs) && Carry(b, plain, |a|, h, bs)
    ensures Carry(a + b, plain, 0, h, bs)
  {
    var c := a + b;
    forall x | 0 <= x < |c|
      ensures Carries(c[x], plain, 0 + x, h, bs)
    {
      if x >= |a| {
        assert c[x] == b[x - |a|] && |a| + (x - |a|) == x;
      } else {
        assert c[x] == a[x];
      }
    }
  }

  lemma PacketIsShard(plain: seq<Byte>, bs: nat, k: nat)
    requires bs > 0 && k < Pieces(|plain|, bs)
    ensures k < |DataShards(plain, bs)| && DataShards(plain, bs)[k] == Packet(plain, bs, k)
  {
    DataShardsCount(plain, bs);
    DataShardsAt(plain, bs, k);
  }

  lemma CarryAll(sent: seq<seq<Byte>>, plain: seq<Byte>, h: nat, bs: nat)
    requires 0 < h < bs && Carry(sent, plain, 0, h, bs) && |sent| == Pieces(|plain|, bs)
    ensures SamePayloads(sent, DataShards(plain, bs), h)
  {
    DataShardsCount(plain, bs);
    forall x | 0 <= x < |sent|
      ensures |sent[x]| == |DataShards(plain, bs)[x]| >= h && sent[x][h..] == DataShards(plain, bs)[x][h..]
    {
      assert Carries(sent[x], plain, 0 + x, h, bs);
      PacketIsShard(plain, bs, x);
    }
  }

  /** Where block `x` begins and ends in packets: on a boundary, or with the frame. */
  lemma BlockBounds(size: nat, bs: nat, f: nat, x: nat, first: nat)
    requires size > 0 && bs >= 3 && 1 <= f <= 255 && x < PlanFor(size, bs, f).count
    requires first * bs == BlockStart(PlanFor(size, bs, f), x)
    ensures var p := PlanFor(size, bs, f);
      var (start, end) := (BlockStart(p, x), BlockEnd(p, size, x));
      && start < end <= size && (end == size || end % bs == 0)
      && (x + 1 < p.count ==> (first + Pieces(end - start, bs)) * bs == BlockStart(p, x + 1) == end)
      && (x + 1 == p.count ==> end == size && first + Pieces(end - start, bs) == Pieces(size, bs))
  {
    var p := PlanFor(size, bs, f);
    BlocksOk(size, bs, f, x);
    var start, end := BlockStart(p, x), BlockEnd(p, size, x);
    if x + 1 < p.count {
      BlocksOk(size, bs, f, x + 1);
      DivModDef(end, bs);
      PiecesMultiple(end, bs, first, end / bs);
    } else {
      PiecesRest(size, bs, first);
    }
  }

  lemma PiecesMultiple(end: nat, bs: nat, first: nat, q: nat)
    requires bs > 0 && end == q * bs && first * bs <= end
    ensures (first + Pieces(end - first * bs, bs)) * bs == end
  {
    if q < first {
      MulMono(q + 1, first, bs);
      MulDist(q, 1, bs);
    }
    MulDist(q - first, first, bs);
    DivModIs(end - first * bs, bs, q - first, 0);
  }

  lemma PiecesRest(size: nat, bs: nat, first: nat)
    requires bs > 0 && first * bs <= size
    ensures first + Pieces(size - first * bs, bs) == Pieces(size, bs)
  {
    DivModShift(size - first * bs, bs, first);
  }

  lemma RoomyBlockEnd(end: nat, size: nat, h: nat, bs: nat)
    requires bs > 0 && (end == size || end % bs == 0) && Roomy(size, h, bs)
    ensures Roomy(end, h, bs)
  {
  }

  /**
   * A frame through the packetizer. `sent` are the data shards of all FEC blocks in order, as they leave.
   * The two functions give the bytes of the headers that the two passes write, by block and by shard; the proof needs
   * nothing of them but their size.
   */
  method PacketizeFrame(frameHeader: seq<Byte>, payload: seq<Byte>, h: nat, p: nat, f: nat, min: nat,
                        header: nat -> nat -> seq<Byte>, header': nat -> nat -> seq<Byte>)
    returns (sent: seq<seq<Byte>>, lastPayloadLen: nat, counts: seq<Counts>)
    requires |frameHeader| == 8 && h >= 2 && p > 0 && 1 <= f <= 255
    requires (forall b, x :: |header(b)(x)| == h) && forall b, x :: |header'(b)(x)| == h
    ensures lastPayloadLen == LastPayloadLen(|frameHeader| + |payload|, p)
    ensures SamePayloads(sent, DataShards(Interleave(h, p, frameHeader + payload), h + p), h)
    ensures Protected(counts, |Interleave(h, p, frameHeader + payload)|, |sent|, h + p, f, min)
  {
    lastPayloadLen := SetLastPayloadLen(|payload| + |frameHeader|, p);
    var bs := h + p;
    var img := ConcatAndInsert(h, p, frameHeader, payload);
    ghost var plain := img[..];
    InterleaveRoomy(h, p, frameHeader + payload);
    InterleaveSize(h, p, frameHeader + payload);
    MulNonNeg(Pieces(|frameHeader + payload|, p), h);
    sent, counts := SendBlocks(img, plain, h, bs, f, min, header, header');
    CarryAll(sent, plain, h, bs);
  }

  method SetLastPayloadLen(n: nat, p: nat) returns (len: nat)
    requires p > 0
    ensures len == LastPayloadLen(n, p)
  {
    len := n % p % 0x10000;
    if len == 0 {
      len := p % 0x10000;
    }
  }

  method SendBlocks(img: array<Byte>, ghost plain: seq<Byte>, h: nat, bs: nat, f: nat, min: nat,
                    header: nat -> nat -> seq<Byte>, header': nat -> nat -> seq<Byte>)
    returns (sent: seq<seq<Byte>>, counts: seq<Counts>)
    requires 2 <= h < bs && img.Length > 0 && 1 <= f <= 255 && Roomy(img.Length, h, bs)
    requires img[..] == plain
    requires (forall b, x :: |header(b)(x)| == h) && forall b, x :: |header'(b)(x)| == h
    modifies img
    ensures |sent| == Pieces(|plain|, bs) && Carry(sent, plain, 0, h, bs)
    ensures Protected(counts, |plain|, |sent|, bs, f, min)
  {
    ghost var plan := PlanFor(img.Length, bs, f);
    var used, blocks := SplitBlocks(img.Length, bs, f);
    sent, counts := [], [];
    var x := 0;
    while x < |blocks|
      invariant x <= |blocks| == plan.count
      invariant Reached(img.Length, bs, f, x, |sent|)
      invariant SameOutsideHeaders(img[..], plain, h, bs) && Carry(sent, plain, 0, h, bs)
      invariant |counts| == x && DataIn(counts) == |sent|
      invariant forall i :: 0 <= i < x ==> counts[i].data > 0 && counts[i] == CountsFor(counts[i].data, used, min)
    {
      var more, c := SendNext(img, plain, f, x, |sent|, blocks[x].0, blocks[x].1, h, bs, used, min, header(x),
        header'(x));
      CarryConcat(sent, more, plain, h, bs);
      sent := sent + more;
      assert (counts + [c])[..x] == counts;
      counts := counts + [c];
      x := x + 1;
    }
  }

  function DataIn(counts: seq<Counts>): nat {
    if counts == [] then 0 else DataIn(counts[..|counts| - 1]) + counts[|counts| - 1].data
  }

  /**
   * The FEC blocks of a frame of `size` bytes in `packets` packets: if four blocks have room for it, as few as have
   * room, each with the parity that the percentage and the client's minimum ask for; otherwise four without parity.
   */
  ghost predicate Protected(counts: seq<Counts>, size: nat, packets: nat, bs: nat, f: nat, min: nat) {
    var m := MaxDataShards(f) * bs;
    && DataIn(counts) == packets
    && (size <= 4 * m ==> forall k: nat :: |counts| <= k <==> size <= k * m)
    && (size > 4 * m ==> |counts| == 4)
    && forall i :: 0 <= i < |counts| ==>
      counts[i].data > 0 && counts[i] == CountsFor(counts[i].data, if size <= 4 * m then f else 0, min)
  }

  /** `first` packets are in the blocks before block `x`. */
  ghost predicate Reached(size: nat, bs: nat, f: nat, x: nat, first: nat)
    requires size > 0 && bs >= 3 && 1 <= f <= 255 && x <= PlanFor(size, bs, f).count
  {
    if x < PlanFor(size, bs, f).count then first * bs == BlockStart(PlanFor(size, bs, f), x)
    else first == Pieces(size, bs)
  }

  method SendNext(img: array<Byte>, ghost plain: seq<Byte>, ghost f: nat, ghost x: nat, ghost first: nat, start: nat,
                  end: nat, h: nat, bs: nat, used: nat, min: nat, header: nat -> seq<Byte>, header': nat -> seq<Byte>)
    returns (sent: seq<seq<Byte>>, c: Counts)
    requires 2 <= h < bs && img.Length > 0 && 1 <= f <= 255 && Roomy(img.Length, h, bs)
    requires x < PlanFor(img.Length, bs, f).count
    requires start == BlockStart(PlanFor(img.Length, bs, f), x)
    requires end == BlockEnd(PlanFor(img.Length, bs, f), img.Length, x)
    requires Reached(img.Length, bs, f, x, first) && SameOutsideHeaders(img[..], plain, h, bs)
    requires (forall x :: |header(x)| == h) && forall x :: |header'(x)| == h
    modifies img
    ensures SameOutsideHeaders(img[..], plain, h, bs)
    ensures Carry(sent, plain, first, h, bs) && Reached(img.Length, bs, f, x + 1, first + |sent|)
    ensures sent != [] && c == CountsFor(|sent|, used, min)
  {
    BlockBounds(img.Length, bs, f, x, first);
    RoomyBlockEnd(end, img.Length, h, bs);
    sent, c := SendBlock(img, plain, first, start, end, h, bs, used, min, header, header');
  }

  /** The length field is right exactly if the final packet carries less than 2^16 bytes. */
  lemma LastLenFitsField(n: nat, p: nat)
    requires p > 0
    ensures LastPayloadLen(n, p) == TrueLastLen(n, p) <==> TrueLastLen(n, p) < 0x10000
  {
    DivModDef(n, p);
    if TrueLastLen(n, p) < 0x10000 {
      DivModIs(TrueLastLen(n, p), 0x10000, 0, TrueLastLen(n, p));
      DivModIs(0, 0x10000, 0, 0);
    }
  }

  /**
   * The round trip: from the data shards a frame is sent as, the receiver gets back exactly the frame header and the
   * payload, and in the final shard only zeros follow. It holds of every frame whose final packet fits the 16-bit
   * length field.
   */
  lemma RoundTrip(sent: seq<seq<Byte>>, frame: seq<Byte>, h: nat, p: nat)
    requires 0 < p && h > 0 && frame != [] && TrueLastLen(|frame|, p) < 0x10000
    requires SamePayloads(sent, DataShards(Interleave(h, p, frame), h + p), h)
    ensures forall i :: 0 <= i < |sent| ==> h + LastPayloadLen(|frame|, p) <= |sent[i]|
    ensures Depacketize(sent, h, LastPayloadLen(|frame|, p)) == frame
    ensures sent != [] && |sent[|sent| - 1]| == h + p
    ensures sent[|sent| - 1][h..][LastPayloadLen(|frame|, p)..] == Zeros(p - LastPayloadLen(|frame|, p))
  {
    var shards, last := DataShards(Interleave(h, p, frame), h + p), TrueLastLen(|frame|, p);
    LastLenFitsField(|frame|, p);
    InterleavedShards(h, p, frame);
    HeadersDoNotMatter(sent, shards, h, last);
    var final := shards[|shards| - 1];
    assert final[h..][last..] == final[h + last..];
  }
}
