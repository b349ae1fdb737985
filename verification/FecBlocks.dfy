/**
 * How a frame is divided into FEC blocks and how much parity each block gets, src/stream.cpp.
 * Sizes are in bytes, `bs` is the block size and `f` the configured FEC percentage (1 to 255).
 */
module FecBlocks {
  import opened Arithmetic
  import opened Basics
  import opened Packetizer

  const DATA_SHARDS_MAX: nat := 255

  const MAX_FEC_BLOCKS: nat := 4

  function MaxDataShards(f: nat): nat {
    (DATA_SHARDS_MAX * 100) / (100 + f)
  }

  function ParityFor(d: nat, f: nat): nat {
    (d * f + 99) / 100
  }

  /** The bound on data shards is exact: up to it data and parity fit in 255 shards, beyond it they do not. */
  lemma MaxDataShardsIsExact(d: nat, f: nat)
    ensures d + ParityFor(d, f) <= DATA_SHARDS_MAX <==> d <= MaxDataShards(f)
  {
    assert d <= MaxDataShards(f) <==> 100 * d + d * f <= 25500 by {
      DivLess(25500, 100 + f, d);
      MulDist(100, f, d);
    }
    if d <= 255 {
      CeilAtMost(d * f, 100, 255 - d);
    } else {
      MulNonNeg(d, f);
    }
  }

  lemma MaxDataShardsRange(f: nat)
    requires 1 <= f <= 255
    ensures 71 <= MaxDataShards(f) <= 252
  {
    DivLess(25500, 100 + f, 71);
    DivLess(25500, 100 + f, 253);
  }

  datatype Plan = Plan(count: nat, f: nat, alignedSize: nat)

  function BlocksNeeded(size: nat, bs: nat, f: nat): nat
    requires bs > 0 && 1 <= f <= 255
  {
    MaxDataShardsRange(f);
    MulNonZero(MaxDataShards(f), bs);
    CeilDiv(size, MaxDataShards(f) * bs)
  }

  lemma MulNonZero(a: nat, b: nat)
    requires a > 0 && b > 0
    ensures a * b > 0
  {
    MulMono(1, a, b);
  }

  function AlignedSize(size: nat, bs: nat, count: nat): nat
    requires bs > 0 && count > 0
  {
    CeilDiv(size / count, bs) * bs
  }

  /** The number of blocks, the percentage used for them, and the distance between their starts. */
  function PlanFor(size: nat, bs: nat, f: nat): Plan
    requires size > 0 && bs > 0 && 1 <= f <= 255
  {
    var needed := BlocksNeeded(size, bs, f);
    SomeBlockNeeded(size, bs, f);
    if needed > MAX_FEC_BLOCKS then Plan(MAX_FEC_BLOCKS, 0, AlignedSize(size, bs, MAX_FEC_BLOCKS))
    else Plan(needed, f, AlignedSize(size, bs, needed))
  }

  lemma SomeBlockNeeded(size: nat, bs: nat, f: nat)
    requires size > 0 && bs > 0 && 1 <= f <= 255
    ensures BlocksNeeded(size, bs, f) > 0
  {
    MaxDataShardsRange(f);
    MulNonZero(MaxDataShards(f), bs);
    CeilAtMost(size, MaxDataShards(f) * bs, 0);
  }

  function BlockStart(p: Plan, x: nat): nat { x * p.alignedSize }

  function BlockEnd(p: Plan, size: nat, x: nat): nat {
    if x + 1 == p.count then size else (x + 1) * p.alignedSize
  }

  /** The last block: not empty, and no longer than `m` bytes if the whole frame is at most `n` times that. */
  lemma LastBlock(size: nat, bs: nat, n: nat, m: nat, a: nat)
    requires 1 <= n <= 4 && bs >= 3 && 71 * bs <= m && (n - 1) * m < size
    requires size / n <= a * bs && (a > 0 ==> (a - 1) * bs < size / n)
    ensures (n - 1) * (a * bs) < size
  {
    var q, t := size / n, a * bs;
    if a > 0 {
      MulDist(a - 1, 1, bs);
    }
    DivModDef(size, n);
    LastStarts(size, n, q, size % n, t, m, bs);
  }

  lemma LastStarts(size: nat, n: nat, q: nat, r: nat, t: nat, m: nat, bs: nat)
    requires 1 <= n <= 4 && bs >= 3 && 71 * bs <= m && size == q * n + r && r < n && (n - 1) * m < size
    requires t == 0 || t < q + bs
    ensures (n - 1) * t < size
  {
    if n == 1 {
    } else if n == 2 {
      assert (n - 1) * t == t && (n - 1) * m == m && q * n == 2 * q;
    } else if n == 3 {
      assert (n - 1) * t == 2 * t && (n - 1) * m == 2 * m && q * n == 3 * q;
    } else {
      assert (n - 1) * t == 3 * t && (n - 1) * m == 3 * m && q * n == 4 * q;
    }
  }

  lemma LastBlockFits(size: nat, bs: nat, n: nat, mShards: nat, a: nat)
    requires 1 <= n <= 4 && bs >= 3 && size <= n * (mShards * bs)
    requires size / n <= a * bs && a <= mShards
    ensures size - (n - 1) * (a * bs) <= mShards * bs
  {
    var q, m, t := size / n, mShards * bs, a * bs;
    if a < mShards {
      MulMono(a + 1, mShards, bs);
      MulDist(a, 1, bs);
    }
    DivModDef(size, n);
    LastFits(size, n, q, size % n, t, m, bs);
  }

  lemma LastFits(size: nat, n: nat, q: nat, r: nat, t: nat, m: nat, bs: nat)
    requires 1 <= n <= 4 && bs >= 3 && size == q * n + r && r < n && size <= n * m
    requires q <= t && (t == m || t + bs <= m)
    ensures size - (n - 1) * t <= m
  {
    if n == 1 {
    } else if n == 2 {
      assert (n - 1) * t == t && n * m == 2 * m && q * n == 2 * q;
    } else if n == 3 {
      assert (n - 1) * t == 2 * t && n * m == 3 * m && q * n == 3 * q;
    } else {
      assert (n - 1) * t == 3 * t && n * m == 4 * m && q * n == 4 * q;
    }
  }

  /** What holds of every block of a plan. */
  predicate BlockOk(p: Plan, size: nat, bs: nat, x: nat)
    requires bs > 0
  {
    && BlockStart(p, x) < BlockEnd(p, size, x) <= size
    && BlockStart(p, x) % bs == 0
    && (p.f > 0 ==> Pieces(BlockEnd(p, size, x) - BlockStart(p, x), bs) <= MaxDataShards(p.f))
  }

  /** The distance between blocks is the least multiple of the block size that holds their share. */
  lemma AlignedIs(size: nat, bs: nat, count: nat) returns (a: nat)
    requires bs > 0 && count > 0
    ensures AlignedSize(size, bs, count) == a * bs
    ensures size / count <= a * bs && (a > 0 ==> (a - 1) * bs < size / count)
    ensures forall m: nat :: a <= m <==> size / count <= m * bs
  {
    a := CeilDiv(size / count, bs);
    CeilAtMost(size / count, bs, a);
    if a > 0 {
      CeilAtMost(size / count, bs, a - 1);
    }
    forall m: nat
      ensures a <= m <==> size / count <= m * bs
    {
      CeilAtMost(size / count, bs, m);
    }
  }

  /** So many blocks are needed, and one fewer would not do. */
  lemma NeededIs(size: nat, bs: nat, f: nat)
    requires size > 0 && bs > 0 && 1 <= f <= 255
    ensures MaxDataShards(f) * bs > 0 && BlocksNeeded(size, bs, f) > 0
    ensures forall k: nat :: BlocksNeeded(size, bs, f) <= k <==> size <= k * (MaxDataShards(f) * bs)
  {
    var m := MaxDataShards(f) * bs;
    SomeBlockNeeded(size, bs, f);
    MaxDataShardsRange(f);
    MulNonZero(MaxDataShards(f), bs);
    forall k: nat
      ensures BlocksNeeded(size, bs, f) <= k <==> size <= k * m
    {
      CeilAtMost(size, m, k);
    }
  }

  /** If `count` blocks of `m` bytes hold the frame, each holds its share. */
  lemma ShareFits(size: nat, count: nat, m: nat)
    requires count > 0 && size <= count * m
    ensures size / count <= m
  {
    DivLess(size, count, m + 1);
    MulDist(m, 1, count);
  }

  lemma PlanFacts(size: nat, bs: nat, f: nat) returns (a: nat)
    requires size > 0 && bs >= 3 && 1 <= f <= 255
    ensures var p := PlanFor(size, bs, f);
      && 1 <= p.count <= MAX_FEC_BLOCKS && p.alignedSize == a * bs
      && size / p.count <= a * bs && (a > 0 ==> (a - 1) * bs < size / p.count)
      && (p.count - 1) * (MaxDataShards(f) * bs) < size
      && (p.f > 0 ==> p.f == f && size <= p.count * (MaxDataShards(f) * bs) && a <= MaxDataShards(f))
  {
    var p := PlanFor(size, bs, f);
    NeededIs(size, bs, f);
    assert !(BlocksNeeded(size, bs, f) <= p.count - 1);
    a := AlignedIs(size, bs, p.count);
    if p.f > 0 {
      assert BlocksNeeded(size, bs, f) <= p.count;
      ShareFits(size, p.count, MaxDataShards(f) * bs);
    }
  }

  /**
   * FEC stays on exactly if four blocks have room for the frame and its parity. Then there are as few blocks as have
   * room; otherwise there are four, without parity.
   */
  lemma FecStaysOn(size: nat, bs: nat, f: nat)
    requires size > 0 && bs >= 3 && 1 <= f <= 255
    ensures var (p, m) := (PlanFor(size, bs, f), MaxDataShards(f) * bs);
      && (p.f == f <==> size <= 4 * m)
      && (p.f == f ==> forall k: nat :: p.count <= k <==> size <= k * m)
      && (p.f != f ==> p.f == 0 && p.count == 4)
  {
    NeededIs(size, bs, f);
    var m := MaxDataShards(f) * bs;
    assert BlocksNeeded(size, bs, f) <= 4 <==> size <= 4 * m;
  }

  /**
   * 700 packets of 1024 bytes at 20 percent need exactly four blocks, and one packet more than four hold is too many.
   */
  lemma FourBlocksAreEnough()
    ensures PlanFor(716_800, 1024, 20).count == 4 && PlanFor(716_800, 1024, 20).f == 20
    ensures MaxDataShards(20) == 212 && PlanFor(4 * 212 * 1024, 1024, 20).f == 20
    ensures PlanFor(4 * 212 * 1024 + 1, 1024, 20) == Plan(4, 0, 212 * 1024)
  {
  }

  lemma StartsOk(size: nat, bs: nat, p: Plan, a: nat, x: nat)
    requires bs > 0 && x < p.count && p.alignedSize == a * bs && (p.count - 1) * (a * bs) < size
    requires p.count > 1 ==> a > 0
    ensures BlockStart(p, x) < BlockEnd(p, size, x) <= size && BlockStart(p, x) % bs == 0
    ensures x + 1 < p.count ==> BlockEnd(p, size, x) - BlockStart(p, x) == a * bs
  {
    var t := a * bs;
    MulMono(x, p.count - 1, t);
    MulAssoc(x, a, bs);
    DivModIs(x * t, bs, x * a, 0);
    if x + 1 < p.count {
      MulDist(x, 1, t);
      MulMono(x + 1, p.count - 1, t);
      MulNonZero(a, bs);
    }
  }

  lemma MulAssoc(a: int, b: int, c: int)
    ensures a * (b * c) == (a * b) * c
  {
  }

  /**
   * No offset passes the end, no block is empty, every block starts on a packet boundary, and with FEC on every block
   * has room for its parity.
   */
  lemma BlocksOk(size: nat, bs: nat, f: nat, x: nat)
    requires size > 0 && bs >= 3 && 1 <= f <= 255 && x < PlanFor(size, bs, f).count
    ensures BlockOk(PlanFor(size, bs, f), size, bs, x)
  {
    var p := PlanFor(size, bs, f);
    var a := PlanFacts(size, bs, f);
    var M := MaxDataShards(f);
    MaxDataShardsRange(f);
    MulMono(71, M, bs);
    LastBlock(size, bs, p.count, M * bs, a);
    assert p.count > 1 ==> a > 0 by {
      if p.count > 1 && a == 0 {
        MulMono(1, p.count - 1, M * bs);
        DivLess(size, p.count, 1);
      }
    }
    StartsOk(size, bs, p, a, x);
    if p.f > 0 {
      RoomOk(size, bs, p, a, x, M);
    }
  }

  lemma RoomOk(size: nat, bs: nat, p: Plan, a: nat, x: nat, mShards: nat)
    requires bs >= 3 && x < p.count <= 4 && p.alignedSize == a * bs
    requires size / p.count <= a * bs && a <= mShards && size <= p.count * (mShards * bs)
    requires BlockStart(p, x) < BlockEnd(p, size, x)
    requires x + 1 < p.count ==> BlockEnd(p, size, x) - BlockStart(p, x) == a * bs
    ensures Pieces(BlockEnd(p, size, x) - BlockStart(p, x), bs) <= mShards
  {
    var len := BlockEnd(p, size, x) - BlockStart(p, x);
    LastBlockFits(size, bs, p.count, mShards, a);
    MulMono(a, mShards, bs);
    PiecesCeil(len, bs);
    CeilAtMost(len, bs, mShards);
  }

  // ----- the 10-bit packet index -----

  const FIELD: nat := 1024

  /** The data shards of block `x`. */
  function ShardsIn(p: Plan, size: nat, bs: nat, x: nat): nat
    requires bs > 0
  {
    if BlockStart(p, x) <= BlockEnd(p, size, x) then Pieces(BlockEnd(p, size, x) - BlockStart(p, x), bs) else 0
  }

  ghost predicate AllFitField(p: Plan, size: nat, bs: nat)
    requires bs > 0
  {
    forall x :: 0 <= x < p.count ==> ShardsIn(p, size, bs, x) < FIELD
  }

  /** A block fits the field if its bytes do. */
  lemma FitsField(len: nat, bs: nat)
    requires bs > 0
    ensures Pieces(len, bs) < FIELD <==> len <= 1023 * bs
  {
    PiecesCeil(len, bs);
    CeilAtMost(len, bs, 1023);
  }

  /** With FEC on, no block and no frame comes near the limit. */
  lemma FitsWithFec(size: nat, bs: nat, f: nat)
    requires size > 0 && bs >= 3 && 1 <= f <= 255 && PlanFor(size, bs, f).f > 0
    ensures AllFitField(PlanFor(size, bs, f), size, bs) && size <= 4 * (1023 * bs)
    ensures PlanFor(size, bs, f).alignedSize / bs < FIELD
  {
    var p := PlanFor(size, bs, f);
    var a := PlanFacts(size, bs, f);
    MaxDataShardsRange(f);
    forall x | 0 <= x < p.count
      ensures ShardsIn(p, size, bs, x) < FIELD
    {
      BlocksOk(size, bs, f, x);
    }
    MulMono(MaxDataShards(f), 1023, bs);
    MulMono(p.count, 4, MaxDataShards(f) * bs);
    DivModIs(a * bs, bs, a, 0);
  }

  /** Four blocks of `a` shards but the last. */
  lemma FourBlocks(size: nat, bs: nat, p: Plan, a: nat)
    requires bs >= 3 && p.count == 4 && p.alignedSize == a * bs && 3 * (a * bs) < size
    ensures ShardsIn(p, size, bs, 0) < FIELD <==> a * bs <= 1023 * bs
    ensures ShardsIn(p, size, bs, 1) == ShardsIn(p, size, bs, 2) == ShardsIn(p, size, bs, 0)
    ensures ShardsIn(p, size, bs, 3) < FIELD <==> size - 3 * (a * bs) <= 1023 * bs
  {
    var t := a * bs;
    assert BlockEnd(p, size, 0) - BlockStart(p, 0) == t && BlockEnd(p, size, 1) - BlockStart(p, 1) == t;
    assert BlockEnd(p, size, 2) - BlockStart(p, 2) == t && BlockEnd(p, size, 3) - BlockStart(p, 3) == size - 3 * t;
    FitsField(t, bs);
    FitsField(size - 3 * t, bs);
  }

  lemma FitsWithoutFec(size: nat, bs: nat, p: Plan, a: nat)
    requires bs >= 3 && p.count == 4 && p.alignedSize == a * bs && 3 * (a * bs) < size
    requires size / 4 <= a * bs && (a > 0 ==> (a - 1) * bs < size / 4)
    ensures AllFitField(p, size, bs) <==> size <= 4 * (1023 * bs)
  {
    FourBlocks(size, bs, p, a);
    assert AllFitField(p, size, bs) ==> ShardsIn(p, size, bs, 0) < FIELD && ShardsIn(p, size, bs, 3) < FIELD;
    if size <= 4 * (1023 * bs) {
      if a > 1023 {
        MulMono(1023, a - 1, bs);
      } else {
        MulMono(a, 1023, bs);
        LastBlockFits(size, bs, 4, 1023, a);
      }
      forall x | 0 <= x < 4
        ensures ShardsIn(p, size, bs, x) < FIELD
      {
        assert x == 0 || x == 1 || x == 2 || x == 3;
      }
    }
  }

  lemma NoFecIsFour(size: nat, bs: nat, f: nat)
    requires size > 0 && bs >= 3 && 1 <= f <= 255 && PlanFor(size, bs, f).f == 0
    ensures PlanFor(size, bs, f).count == 4
  {
  }

  /** Every block of a frame has fewer than 1024 data shards exactly up to 4 * 1023 packets, with FEC or without. */
  lemma AllFitFieldExactly(size: nat, bs: nat, f: nat)
    requires size > 0 && bs >= 3 && 1 <= f <= 255
    ensures AllFitField(PlanFor(size, bs, f), size, bs) <==> size <= 4 * (1023 * bs)
  {
    if PlanFor(size, bs, f).f > 0 {
      FitsWithFec(size, bs, f);
    } else {
      var a := PlanFacts(size, bs, f);
      NoFecIsFour(size, bs, f);
      BlocksOk(size, bs, f, 3);
      FitsWithoutFec(size, bs, PlanFor(size, bs, f), a);
    }
  }

  /** The code complains about a frame that is too large only three bytes later. */
  lemma WarningIsLate(size: nat, bs: nat, f: nat)
    requires size > 0 && bs >= 3 && 1 <= f <= 255
    ensures PlanFor(size, bs, f).alignedSize / bs >= FIELD <==> size > 4 * (1023 * bs) + 3
  {
    if PlanFor(size, bs, f).f > 0 {
      FitsWithFec(size, bs, f);
    } else {
      var a := PlanFacts(size, bs, f);
      NoFecIsFour(size, bs, f);
      DivModIs(a * bs, bs, a, 0);
      DivModDef(size, 4);
      if a >= 1024 {
        MulMono(1023, a - 1, bs);
      } else {
        MulMono(a, 1023, bs);
      }
    }
  }

  /** One byte more than four blocks of 1023 packets of 1000 bytes: the last block has 1024, and nothing is logged. */
  lemma UnnoticedLargeFrame()
    ensures var p := PlanFor(4_092_001, 1000, 20);
      p.alignedSize / 1000 == 1023 && ShardsIn(p, 4_092_001, 1000, 3) == 1024
  {
    var size, p := 4_092_001, PlanFor(4_092_001, 1000, 20);
    assert p == Plan(4, 0, 1_023_000);
  }
}
