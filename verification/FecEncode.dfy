/**
 * fec::encode of src/stream.cpp: shard counts, the percentage that is advertised to the client,
 * and where each shard lives. Reed-Solomon parity bytes are left arbitrary.
 */
module FecEncode {
  import opened Arithmetic
  import opened Basics
  import opened Packetizer
  import opened FecBlocks

  datatype Counts = Counts(data: nat, parity: nat, percentage: nat)

  /** Counts for `d` data shards at `f` percent with at least `min` parity shards. */
  function CountsFor(d: nat, f: nat, min: nat): Counts
    requires d > 0
  {
    if ParityFor(d, f) < min && f != 0 then Counts(d, min, (100 * min) / d) else Counts(d, ParityFor(d, f), f)
  }

  predicate Raised(d: nat, f: nat, min: nat) { ParityFor(d, f) < min && f != 0 }

  /**
   * With FEC on there is as little parity as gives both the percentage and the client's minimum; with FEC off there is
   * none.
   */
  lemma ParityIsLeast(d: nat, f: nat, min: nat)
    requires d > 0
    ensures CountsFor(d, f, min).data == d
    ensures f == 0 ==> CountsFor(d, f, min).parity == 0
    ensures f > 0 ==> forall k: nat :: CountsFor(d, f, min).parity <= k <==> min <= k && d * f <= 100 * k
  {
    if f == 0 {
      assert d * f == 0;
    }
    forall k: nat
      ensures ParityFor(d, f) <= k <==> d * f <= 100 * k
    {
      CeilAtMost(d * f, 100, k);
    }
  }

  /** With FEC on, data and parity fit in 255 shards exactly when the client's minimum leaves room for the data. */
  lemma ShardsFit(d: nat, f: nat, min: nat)
    requires 1 <= f && 0 < d <= MaxDataShards(f)
    ensures d + CountsFor(d, f, min).parity <= DATA_SHARDS_MAX <==> min <= DATA_SHARDS_MAX - d
  {
    MaxDataShardsIsExact(d, f);
  }

  /**
   * The client recomputes the number of parity shards from the advertised percentage. It gets the number that was
   * sent if and only if the percentage was not raised or the remainder lost by rounding it down is below 100.
   */
  lemma PercentageFaithful(d: nat, f: nat, min: nat)
    requires d > 0
    ensures ParityFor(d, CountsFor(d, f, min).percentage) == CountsFor(d, f, min).parity
      <==> (Raised(d, f, min) ==> (100 * min) % d < 100)
  {
    if Raised(d, f, min) {
      var g := (100 * min) / d;
      DivModDef(100 * min, d);
      CeilAtMost(d * g, 100, min);
      CeilAtMost(d * g, 100, min - 1);
      assert d * g == 100 * min - (100 * min) % d;
    }
  }

  /** In particular for blocks of at most 100 data shards. */
  lemma PercentageFaithfulForSmallBlocks(d: nat, f: nat, min: nat)
    requires 0 < d <= 100
    ensures ParityFor(d, CountsFor(d, f, min).percentage) == CountsFor(d, f, min).parity
  {
    PercentageFaithful(d, f, min);
    DivModDef(100 * min, d);
  }

  /** 199 data shards at 1 percent with a minimum of 3: three parity shards are sent, the client expects two. */
  lemma PercentageCanMislead()
    ensures 199 <= MaxDataShards(1)
    ensures CountsFor(199, 1, 3) == Counts(199, 3, 1) && ParityFor(199, 1) == 2
  {
  }

  /** A raised percentage is never zero, so parity that was asked for is always computed. */
  lemma RaisedIsNotZero(d: nat, f: nat, min: nat)
    requires d > 0
    ensures CountsFor(d, f, min).percentage == 0 <==> f == 0
  {
    if Raised(d, f, min) {
      CeilAtMost(d * f, 100, min - 1);
      MulMono(1, f, d);
      DivLess(100 * min, d, 1);
    }
  }

  /** The percentage fits its 8-bit field exactly when it was not raised past 255. */
  lemma PercentageFitsField(d: nat, f: nat, min: nat)
    requires d > 0 && f <= 255
    ensures CountsFor(d, f, min).percentage < 256 <==> (Raised(d, f, min) ==> 100 * min < 256 * d)
  {
    if Raised(d, f, min) {
      DivLess(100 * min, d, 256);
    }
  }

  // ----- the header fields that carry these numbers -----

  /** fecInfo: 10 bits of data shard count, 10 bits of index, 8 bits of percentage, 4 unused. */
  function FecInfo(index: bv32, data: bv32, percentage: bv32): bv32 {
    (index << 12) | (data << 22) | (percentage << 4)
  }

  function IndexIn(info: bv32): bv32 { (info >> 12) & 0x3FF }

  function DataIn(info: bv32): bv32 { info >> 22 }

  function PercentageIn(info: bv32): bv32 { (info >> 4) & 0xFF }

  /** fecInfo decodes to what was put in exactly when each number fits its field. */
  lemma FecInfoDecodes(index: bv32, data: bv32, percentage: bv32)
    ensures var info := FecInfo(index, data, percentage);
      IndexIn(info) == index && DataIn(info) == data && PercentageIn(info) == percentage
      <==> index < 1024 && data < 1024 && percentage < 256
  {
  }

  /** A number as it is counted in 32 bits, which is what it leaves in fecInfo. */
  function Low(n: nat): bv32 {
    if n == 0 then 0 else Low(n - 1) + 1
  }

  /** The client reads the three numbers that were put in. */
  predicate Decodes(index: nat, data: nat, percentage: nat) {
    var info := FecInfo(Low(index), Low(data), Low(percentage));
    IndexIn(info) as nat == index && DataIn(info) as nat == data && PercentageIn(info) as nat == percentage
  }

  lemma BitsAreNumber(b: bv32)
    ensures (b < 1024 <==> b as nat < 1024) && (b < 256 <==> b as nat < 256)
  {
  }

  lemma NextNumber(b: bv32)
    requires b < 1024
    ensures (b + 1) as nat == b as nat + 1
  {
  }

  lemma {:induction false} LowSmall(n: nat)
    requires n <= 1024
    ensures Low(n) as nat == n
  {
    if n > 0 {
      LowSmall(n - 1);
      BitsAreNumber(Low(n - 1));
      NextNumber(Low(n - 1));
    }
  }

  /** What is read back always fits its field. */
  lemma FieldsAreSmall(info: bv32)
    ensures IndexIn(info) as nat < 1024 && DataIn(info) as nat < 1024 && PercentageIn(info) as nat < 256
  {
    assert IndexIn(info) < 1024 && DataIn(info) < 1024 && PercentageIn(info) < 256;
    BitsAreNumber(IndexIn(info));
    BitsAreNumber(DataIn(info));
    BitsAreNumber(PercentageIn(info));
  }

  lemma SmallNumbersDecode(index: nat, data: nat, percentage: nat)
    requires index < 1024 && data < 1024 && percentage < 256
    ensures Decodes(index, data, percentage)
  {
    var i, d, p := Low(index), Low(data), Low(percentage);
    LowSmall(index);
    LowSmall(data);
    LowSmall(percentage);
    BitsAreNumber(i);
    BitsAreNumber(d);
    BitsAreNumber(p);
    FecInfoDecodes(i, d, p);
  }

  lemma NumbersDecode(index: nat, data: nat, percentage: nat)
    ensures Decodes(index, data, percentage) <==> index < 1024 && data < 1024 && percentage < 256
  {
    if index < 1024 && data < 1024 && percentage < 256 {
      SmallNumbersDecode(index, data, percentage);
    } else {
      FieldsAreSmall(FecInfo(Low(index), Low(data), Low(percentage)));
    }
  }

  /** With FEC on, a block whose percentage fits its field has no more shards than fit theirs. */
  lemma FewShards(d: nat, f: nat, min: nat)
    requires 1 <= f <= 255 && 0 < d <= MaxDataShards(f) && CountsFor(d, f, min).percentage < 256
    ensures d + CountsFor(d, f, min).parity <= 1024
  {
    MaxDataShardsRange(f);
    PercentageFitsField(d, f, min);
    MaxDataShardsIsExact(d, f);
  }

  /**
   * With FEC on, each shard of a block, data or parity, carries a fecInfo that decodes to its index, the number of data
   * shards and the percentage, if and only if the percentage was not raised past 255.
   */
  lemma ShardDecodes(d: nat, f: nat, min: nat, x: nat)
    requires 1 <= f <= 255 && 0 < d <= MaxDataShards(f) && x < d + CountsFor(d, f, min).parity
    ensures Decodes(x, d, CountsFor(d, f, min).percentage) <==> (Raised(d, f, min) ==> 100 * min < 256 * d)
  {
    var c := CountsFor(d, f, min);
    PercentageFitsField(d, f, min);
    NumbersDecode(x, d, c.percentage);
    MaxDataShardsRange(f);
    if c.percentage < 256 {
      FewShards(d, f, min);
    }
  }

  /** Without FEC there is no parity, and the shards of a block decode if and only if it has fewer than 1024 of them. */
  lemma ShardDecodesWithoutFec(d: nat, min: nat, x: nat)
    requires 0 < d && x < d + CountsFor(d, 0, min).parity
    ensures x < d && (Decodes(x, d, CountsFor(d, 0, min).percentage) <==> d < 1024)
  {
    NumbersDecode(x, d, 0);
  }

  /** Every shard of every block of the frame decodes. */
  ghost predicate FrameDecodes(p: Plan, size: nat, bs: nat, min: nat)
    requires bs > 0 && forall k :: 0 <= k < p.count ==> ShardsIn(p, size, bs, k) > 0
  {
    forall k :: 0 <= k < p.count ==> BlockDecodes(ShardsIn(p, size, bs, k), p.f, min)
  }

  ghost predicate BlockDecodes(d: nat, f: nat, min: nat)
    requires d > 0
  {
    forall x :: 0 <= x < d + CountsFor(d, f, min).parity ==> Decodes(x, d, CountsFor(d, f, min).percentage)
  }

  lemma BlockDecodesExactly(d: nat, f: nat, min: nat)
    requires f <= 255 && 0 < d && (f > 0 ==> d <= MaxDataShards(f))
    ensures BlockDecodes(d, f, min) <==> if f > 0 then Raised(d, f, min) ==> 100 * min < 256 * d else d < 1024
  {
    var n := d + CountsFor(d, f, min).parity;
    forall x | 0 <= x < n
      ensures Decodes(x, d, CountsFor(d, f, min).percentage)
        <==> if f > 0 then Raised(d, f, min) ==> 100 * min < 256 * d else d < 1024
    {
      if f > 0 {
        ShardDecodes(d, f, min, x);
      } else {
        ShardDecodesWithoutFec(d, min, x);
      }
    }
    assert BlockDecodes(d, f, min) ==> Decodes(0, d, CountsFor(d, f, min).percentage);
  }

  /**
   * All shards of a frame decode if and only if, with FEC on, no block's percentage was raised past 255, and, in the
   * zero-FEC fallback, the frame has at most 4 * 1023 packets.
   */
  lemma FrameDecodesExactly(size: nat, bs: nat, f: nat, min: nat)
    requires size > 0 && bs >= 3 && 1 <= f <= 255
    ensures var p := PlanFor(size, bs, f);
      && (forall k :: 0 <= k < p.count ==> ShardsIn(p, size, bs, k) > 0)
      && (FrameDecodes(p, size, bs, min) <==>
            if p.f == 0 then size <= 4 * (1023 * bs)
            else forall k :: 0 <= k < p.count ==>
              var d := ShardsIn(p, size, bs, k); Raised(d, p.f, min) ==> 100 * min < 256 * d)
  {
    var p := PlanFor(size, bs, f);
    forall k | 0 <= k < p.count
      ensures ShardsIn(p, size, bs, k) > 0
      ensures BlockDecodes(ShardsIn(p, size, bs, k), p.f, min) <==>
        var d := ShardsIn(p, size, bs, k); if p.f > 0 then Raised(d, p.f, min) ==> 100 * min < 256 * d else d < FIELD
    {
      BlocksOk(size, bs, f, k);
      PiecesOf(BlockEnd(p, size, k) - BlockStart(p, k), bs);
      BlockDecodesExactly(ShardsIn(p, size, bs, k), p.f, min);
    }
    AllFitFieldExactly(size, bs, f);
  }

  /**
   * One data shard with a minimum of three: 300 percent spills into the index, and the first shard claims to be the
   * second.
   */
  lemma SpilledPercentage()
    ensures CountsFor(1, 20, 3) == Counts(1, 3, 300)
    ensures IndexIn(FecInfo(0, 1, 300)) == 1 && PercentageIn(FecInfo(0, 1, 300)) == 44
  {
  }

  /** multiFecBlocks: which of the (at most four) blocks this is, and how many there are. */
  function MultiFecBlocks(block: bv8, count: bv8): bv8 {
    (block << 4) | ((count - 1) << 6)
  }

  lemma MultiFecBlocksDecodes(block: bv8, count: bv8)
    ensures var m := MultiFecBlocks(block, count);
      (m >> 4) & 3 == block && (m >> 6) + 1 == count <==> block < 4 && 1 <= count <= 4
  {
  }
}
