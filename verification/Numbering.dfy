/**
 * The counters of one session in src/stream.cpp: RTP sequence numbers, streamPacketIndex, and the
 * deterministic IVs of encrypted video (section 8.2.1 of NIST SP 800-38D) and V2 control messages.
 */
module Numbering {
  import opened Arithmetic
  import opened Basics

  type Octet = n: nat | n < 256

  // ----- bytes of a counter -----

  function Power256(k: nat): (p: nat)
    ensures p > 0
  {
    if k == 0 then 1 else Power256(k - 1) * 256
  }

  function Low(n: nat): Octet {
    n % 256
  }

  /** The first `k` bytes of `n` as a little-endian machine stores it. */
  function LittleEndian(n: nat, k: nat): (b: seq<Octet>)
    ensures |b| == k
  {
    if k == 0 then [] else [Low(n)] + LittleEndian(n / 256, k - 1)
  }

  /** Byte `i` is (n / 256^i) mod 256. */
  lemma {:induction false} ByteIs(n: nat, k: nat, i: nat)
    requires i < k
    ensures LittleEndian(n, k)[i] == n / Power256(i) % 256
  {
    if i > 0 {
      ByteIs(n / 256, k - 1, i - 1);
      DivTwice(n, 256, Power256(i - 1));
    }
  }

  lemma DivTwice(n: nat, a: nat, b: nat)
    requires a > 0 && b > 0
    ensures b * a > 0 && n / a / b == n / (b * a)
  {
    var q := n / a;
    DivModDef(n, a);
    DivModDef(q, b);
    DivTwiceRest(a, b, n % a, q % b);
    Expanded(q / b, b, a, q % b, n % a);
    DivModIs(n, b * a, q / b, q % b * a + n % a);
  }

  lemma Expanded(q: nat, b: nat, a: nat, s: nat, r: nat)
    ensures (q * b + s) * a + r == q * (b * a) + (s * a + r)
  {
    MulDist(q * b, s, a);
    assert q * b * a == q * (b * a);
  }

  lemma DivTwiceRest(a: nat, b: nat, r: nat, s: nat)
    requires r < a && s < b
    ensures 0 <= s * a + r < b * a
  {
    MulMono(s + 1, b, a);
    MulDist(s, 1, a);
  }

  /** n mod (p * 256) is made of n mod 256 and the quotient mod p. */
  lemma SplitRemainder(n: nat, p: nat)
    requires p > 0
    ensures n % (p * 256) == (n / 256 % p) * 256 + n % 256
  {
    var q := n / 256;
    DivModDef(q, p);
    assert n == (q / p) * (p * 256) + ((q % p) * 256 + n % 256);
    DivModIs(n, p * 256, q / p, (q % p) * 256 + n % 256);
  }

  lemma SameHeadAndTail<T>(a: T, x: seq<T>, b: T, y: seq<T>)
    ensures [a] + x == [b] + y <==> a == b && x == y
  {
    assert ([a] + x)[0] == a && ([a] + x)[1..] == x;
    assert ([b] + y)[0] == b && ([b] + y)[1..] == y;
  }

  /** Two counters are stored alike exactly when they agree modulo 256^k. */
  lemma {:induction false} SameBytes(a: nat, b: nat, k: nat)
    ensures LittleEndian(a, k) == LittleEndian(b, k) <==> a % Power256(k) == b % Power256(k)
  {
    if k > 0 {
      SameHeadAndTail(Low(a), LittleEndian(a / 256, k - 1), Low(b), LittleEndian(b / 256, k - 1));
      SameBytes(a / 256, b / 256, k - 1);
      SplitRemainder(a, Power256(k - 1));
      SplitRemainder(b, Power256(k - 1));
    }
  }

  // ----- IVs -----

  const IV_SIZE := 12

  /** What the session's key is used for. */
  datatype Purpose = Video | ControlFromHost

  /** The last two bytes of an IV: 'V', or 'H' and 'C'. */
  function Fixed(u: Purpose): (b: seq<Octet>)
    ensures |b| == 2
  {
    match u
    case Video => [0, 0x56]
    case ControlFromHost => [0x48, 0x43]
  }

  function CounterSize(u: Purpose): nat {
    match u case Video => 8 case ControlFromHost => 4
  }

  /** An IV: the counter's bytes, zeros, and the fixed field. */
  function Iv(u: Purpose, counter: nat): (iv: seq<Octet>)
    ensures |iv| == IV_SIZE
  {
    LittleEndian(counter, CounterSize(u)) + seq(10 - CounterSize(u), i => 0) + Fixed(u)
  }

  /**
   * The counter's low byte comes first, zeros follow it, and the last two bytes are `\0 V` for video and `H C` for
   * control.
   */
  lemma IvBytes(u: Purpose, counter: nat, i: nat)
    requires i < IV_SIZE
    ensures i < CounterSize(u) ==> Iv(u, counter)[i] == counter / Power256(i) % 256
    ensures CounterSize(u) <= i < 10 ==> Iv(u, counter)[i] == 0
    ensures Iv(u, counter)[10] == (if u.Video? then 0 else 'H' as nat)
    ensures Iv(u, counter)[11] == if u.Video? then 'V' as nat else 'C' as nat
  {
    if i < CounterSize(u) {
      ByteIs(counter, CounterSize(u), i);
    }
  }

  const U16 := 0x1_0000
  const U32 := 0x1_0000_0000
  const U64 := 0x1_0000_0000_0000_0000

  function Range(u: Purpose): (n: nat)
    ensures n > 0
  {
    match u case Video => U64 case ControlFromHost => U32
  }

  lemma CounterRange(u: Purpose)
    ensures Power256(CounterSize(u)) == Range(u)
  {
    assert Power256(2) == 0x1_0000;
    assert Power256(4) == U32;
    assert Power256(6) == 0x1_0000_0000_0000;
  }

  /** Two IVs under a session's key are equal only for the same use of it and counters equal modulo their width. */
  lemma IvsRepeat(u: Purpose, a: nat, v: Purpose, b: nat)
    ensures Iv(u, a) == Iv(v, b) <==> u == v && a % Range(u) == b % Range(u)
  {
    if u == v {
      SameUse(u, a, b);
      SameBytes(a, b, CounterSize(u));
      CounterRange(u);
    } else {
      OtherUse(u, a, v, b);
    }
  }

  lemma WrappedCounter(u: Purpose, n: nat)
    ensures Iv(u, n % Range(u)) == Iv(u, n)
  {
    DivModDef(n, Range(u));
    DivModIs(n % Range(u), Range(u), 0, n % Range(u));
    IvsRepeat(u, n % Range(u), u, n);
  }

  lemma SameUse(u: Purpose, a: nat, b: nat)
    ensures Iv(u, a) == Iv(u, b) <==> LittleEndian(a, CounterSize(u)) == LittleEndian(b, CounterSize(u))
  {
    IvParts(u, a);
    IvParts(u, b);
  }

  lemma OtherUse(u: Purpose, a: nat, v: Purpose, b: nat)
    requires u != v
    ensures Iv(u, a) != Iv(v, b)
  {
    IvParts(u, a);
    IvParts(v, b);
    assert Fixed(u)[1] != Fixed(v)[1];
  }

  lemma IvParts(u: Purpose, counter: nat)
    ensures Iv(u, counter)[..CounterSize(u)] == LittleEndian(counter, CounterSize(u))
    ensures Iv(u, counter)[10..] == Fixed(u)
  {
  }

  // ----- what a session has sent -----

  /**
   * One shard as it left: its RTP sequence number, streamPacketIndex if it is a data shard, and the IV if it was
   * encrypted.
   */
  datatype Packet = Packet(number: nat, index: Option<nat>, iv: Option<seq<Octet>>)

  function RtpNumber(k: nat): nat {
    k % U16
  }

  /** ((uint32_t) k) << 8 */
  function StreamIndex(k: nat): nat {
    k % U32 * 256 % U32
  }

  const U24 := 0x100_0000

  /** Only the low 24 bits of the number survive the shift. */
  lemma StreamIndexIs(k: nat)
    ensures StreamIndex(k) == (k % U24) * 256
  {
    var a, b := k / U24, k % U24;
    DivModIs(k, U32, a / 256, (a % 256) * U24 + b);
    DivModIs(k % U32 * 256, U32, a % 256, b * 256);
  }

  lemma NumbersAgree(k: nat)
    ensures StreamIndex(k) / 256 % U16 == RtpNumber(k) && StreamIndex(k) % 256 == 0
  {
    StreamIndexIs(k);
    var a, b := k / U24, k % U24;
    DivModIs(StreamIndex(k), 256, b, 0);
    DivModIs(k, U16, a * 256 + b / U16, b % U16);
  }

  lemma NumbersFollow(k: nat)
    ensures RtpNumber(k + 1) == (RtpNumber(k) + 1) % U16
    ensures StreamIndex(k + 1) == (StreamIndex(k) + 256) % U32
  {
    StreamIndexIs(k);
    StreamIndexIs(k + 1);
    var a, b := k / U24, k % U24;
    Wrap(k, U16);
    if b + 1 < U24 {
      DivModIs(k + 1, U24, a, b + 1);
      DivModIs(StreamIndex(k) + 256, U32, 0, b * 256 + 256);
    } else {
      DivModIs(k + 1, U24, a + 1, 0);
      DivModIs(StreamIndex(k) + 256, U32, 1, 0);
    }
  }

  // ----- lowseq, a signed 32-bit number -----

  type Int32 = x: int | -0x8000_0000 <= x < 0x8000_0000

  /** A number brought into the range of int by wrapping around. */
  function Wrapped(z: int): (x: Int32) {
    if z % U32 < 0x8000_0000 then z % U32 else z % U32 - U32
  }

  /** Adding a multiple of `w` does not change the remainder, on either side of zero. */
  lemma SameRemainder(a: int, b: int, w: nat, k: int)
    requires w > 0 && a == b + k * w
    ensures a % w == b % w
  {
    var z := a / w - b / w - k;
    assert z * w == b % w - a % w by {
      MulDist(a / w, -(b / w) - k, w);
      MulDist(-(b / w), -k, w);
    }
    if z >= 1 {
      MulMono(1, z, w);
    } else if z <= -1 {
      MulMono(z, -1, w);
    }
  }

  /** The wrapped number differs from the number by a multiple of 2^32. */
  lemma WrappedIs(z: int) returns (k: int)
    ensures Wrapped(z) == z + k * U32
  {
    k := if z % U32 < 0x8000_0000 then -(z / U32) else -(z / U32) - 1;
  }

  /** Whether lowseq has wrapped makes no difference to the 16-bit number sent. */
  lemma NumberOfWrapped(n: nat, x: nat)
    ensures (Wrapped(n) + x) % U16 == RtpNumber(n + x)
  {
    var k := WrappedIs(n);
    SameRemainder(Wrapped(n) + x, n + x, U16, k * 0x1_0000);
  }

  /** Nor to streamPacketIndex, for which it is cast before x is added. */
  lemma IndexOfWrapped(n: nat, x: nat)
    ensures (Wrapped(n) % U32 + x) % U32 * 256 % U32 == StreamIndex(n + x)
  {
    var k := WrappedIs(n);
    SameRemainder(Wrapped(n), n, U32, k);
    DivModDef(n, U32);
    DivModShift(n % U32 + x, U32, n / U32);
  }

  /** Counting on from a wrapped number and wrapping is counting on and wrapping. */
  lemma WrappedAgain(n: nat, x: nat)
    ensures Wrapped(Wrapped(n) + x) == Wrapped(n + x)
  {
    var k := WrappedIs(n);
    SameRemainder(Wrapped(n) + x, n + x, U32, k);
  }

  // ----- histories -----

  /** The packet that shard number `k` of a session must be. */
  ghost predicate IsShard(p: Packet, k: nat, encrypted: bool) {
    && p.number == RtpNumber(k)
    && (p.index.Some? ==> p.index.value == StreamIndex(k))
    && p.iv == if encrypted then Some(Iv(Video, k)) else None
  }

  ghost predicate VideoHistory(video: seq<Packet>, encrypted: bool) {
    forall k :: 0 <= k < |video| ==> IsShard(video[k], k, encrypted)
  }

  ghost predicate ControlHistory(control: seq<seq<Octet>>) {
    forall k :: 0 <= k < |control| ==> control[k] == Iv(ControlFromHost, k)
  }

  /**
   * Sequence numbers advance by one per shard modulo 2^16, over blocks and frames, and the two numberings of a data
   * shard agree.
   */
  lemma NumbersAdvance(video: seq<Packet>, encrypted: bool, k: nat)
    requires VideoHistory(video, encrypted) && k < |video|
    ensures k > 0 ==> video[k].number == (video[k - 1].number + 1) % U16
    ensures video[k].index.Some? ==>
      video[k].index.value / 256 % U16 == video[k].number && video[k].index.value % 256 == 0
    ensures k > 0 && video[k].index.Some? && video[k - 1].index.Some? ==>
              video[k].index.value == (video[k - 1].index.value + 256) % U32
  {
    assert IsShard(video[k], k, encrypted);
    NumbersAgree(k);
    if k > 0 {
      assert IsShard(video[k - 1], k - 1, encrypted);
      NumbersFollow(k - 1);
    }
  }

  ghost predicate NoIvTwice(video: seq<Packet>, control: seq<seq<Octet>>) {
    && (forall i, j :: 0 <= i < j < |video| ==> video[i].iv != video[j].iv)
    && (forall i, j :: 0 <= i < j < |control| ==> control[i] != control[j])
    && (forall i, j :: 0 <= i < |video| && 0 <= j < |control| ==> video[i].iv != Some(control[j]))
  }

  lemma VideoIvsRepeat(video: seq<Packet>, i: nat, j: nat)
    requires VideoHistory(video, true) && i < |video| && j < |video|
    ensures video[i].iv == video[j].iv <==> i % U64 == j % U64
  {
    assert IsShard(video[i], i, true) && IsShard(video[j], j, true);
    IvsRepeat(Video, i, Video, j);
  }

  lemma ControlIvsRepeat(control: seq<seq<Octet>>, i: nat, j: nat)
    requires ControlHistory(control) && i < |control| && j < |control|
    ensures control[i] == control[j] <==> i % U32 == j % U32
  {
    IvsRepeat(ControlFromHost, i, ControlFromHost, j);
  }

  lemma FirstWrap(w: nat)
    requires w > 0
    ensures 0 % w == w % w
  {
    DivModIs(w, w, 1, 0);
  }

  lemma BeforeWrap(w: nat, i: nat, j: nat)
    requires i < j < w
    ensures i % w != j % w
  {
    DivModIs(i, w, 0, i);
    DivModIs(j, w, 0, j);
  }

  lemma VideoIvsFresh(video: seq<Packet>)
    requires VideoHistory(video, true)
    ensures (forall i, j :: 0 <= i < j < |video| ==> video[i].iv != video[j].iv) <==> |video| <= U64
  {
    if |video| > U64 {
      VideoIvsRepeat(video, 0, U64);
      FirstWrap(U64);
    } else {
      forall i, j | 0 <= i < j < |video|
        ensures video[i].iv != video[j].iv
      {
        VideoIvsRepeat(video, i, j);
        BeforeWrap(U64, i, j);
      }
    }
  }

  lemma ControlIvsFresh(control: seq<seq<Octet>>)
    requires ControlHistory(control)
    ensures (forall i, j :: 0 <= i < j < |control| ==> control[i] != control[j]) <==> |control| <= U32
  {
    if |control| > U32 {
      ControlIvsRepeat(control, 0, U32);
      FirstWrap(U32);
    } else {
      forall i, j | 0 <= i < j < |control|
        ensures control[i] != control[j]
      {
        ControlIvsRepeat(control, i, j);
        BeforeWrap(U32, i, j);
      }
    }
  }

  /** Under one session's key no IV is used twice exactly as long as neither counter has wrapped. */
  lemma IvsAreFresh(video: seq<Packet>, control: seq<seq<Octet>>)
    requires VideoHistory(video, true) && ControlHistory(control)
    ensures NoIvTwice(video, control) <==> |video| <= U64 && |control| <= U32
  {
    VideoIvsFresh(video);
    ControlIvsFresh(control);
    forall i, j | 0 <= i < |video| && 0 <= j < |control|
      ensures video[i].iv != Some(control[j])
    {
      assert IsShard(video[i], i, true);
      IvsRepeat(Video, i, ControlFromHost, j);
    }
  }

  /** Counting on from a wrapped counter is counting on and then wrapping. */
  lemma Wrap(n: nat, w: nat)
    requires w > 0
    ensures (n % w + 1) % w == (n + 1) % w
  {
    DivModDef(n, w);
    DivModShift(n % w + 1, w, n / w);
  }

  lemma ControlIvBuilt(iv: seq<Octet>, n: nat)
    requires |iv| == IV_SIZE && iv[..4] == LittleEndian(n, 4) && (forall i :: 4 <= i < 10 ==> iv[i] == 0)
    requires iv[10] == 0x48 && iv[11] == 0x43
    ensures iv == Iv(ControlFromHost, n)
  {
    assert iv == iv[..4] + iv[4..10] + iv[10..];
    assert iv[4..10] == seq(6, i => 0);
  }

  lemma VideoIvBuilt(iv: seq<Octet>, counter: nat)
    requires IvReady(iv) && iv[..8] == LittleEndian(counter, 8) && iv[11] == 0x56
    ensures iv == Iv(Video, counter)
  {
    assert iv == iv[..8] + iv[8..10] + iv[10..];
    assert iv[8..10] == seq(2, i => 0);
  }

  // ----- the code that counts -----

  /** The broadcast thread's IV buffer: all but the first 8 bytes and the last are zero from the start. */
  ghost predicate IvReady(iv: seq<Octet>) {
    |iv| == IV_SIZE && iv[8] == 0 && iv[9] == 0 && iv[10] == 0
  }

  class Session {
    const encrypted: bool
    var lowseq: Int32
    var gcmIvCounter: nat
    var controlSeq: nat
    var outgoingIv: seq<Octet>
    /** Everything sent so far. */
    ghost var video: seq<Packet>
    ghost var control: seq<seq<Octet>>

    ghost predicate Valid()
      reads this
    {
      && lowseq == Wrapped(|video|) && VideoHistory(video, encrypted)
      && CounterOk()
      && controlSeq == |control| % U32 && ControlHistory(control)
      && |outgoingIv| <= IV_SIZE && forall i :: 4 <= i < 10 && i < |outgoingIv| ==> outgoingIv[i] == 0
    }

    constructor (encrypted: bool)
      ensures Valid() && this.encrypted == encrypted && video == [] && control == []
    {
      this.encrypted := encrypted;
      lowseq, gcmIvCounter, controlSeq, outgoingIv := 0, 0, 0, [];
      video, control := [], [];
    }

    /** encode_control with V2 encryption: the IV for the next message. */
    method EncodeControl() returns (iv: seq<Octet>)
      requires Valid()
      modifies this`controlSeq, this`outgoingIv, this`control
      ensures Valid() && control == old(control) + [iv]
    {
      var n := controlSeq;
      controlSeq := (controlSeq + 1) % U32;
      iv := outgoingIv + seq(IV_SIZE - |outgoingIv|, i => 0);
      iv := LittleEndian(n, 4) + iv[4..];
      iv := iv[10 := 0x48];
      iv := iv[11 := 0x43];
      ControlIvBuilt(iv, n);
      WrappedCounter(ControlFromHost, |control|);
      outgoingIv := iv;
      control := control + [iv];
      Wrap(|old(control)|, U32);
    }

    /** The second header pass over shard `x` of a block: number, index if it is a data shard, and encryption. */
    method SendShard(iv: array<Octet>, low: Int32, ghost first: nat, x: nat, index: Option<nat>)
      requires IvReady(iv[..]) && VideoHistory(video, encrypted) && low == Wrapped(first) && first + x == |video|
      requires CounterOk()
      requires index.Some? ==> index.value == StreamIndex(first + x)
      modifies iv, this`gcmIvCounter, this`video
      ensures IvReady(iv[..]) && VideoHistory(video, encrypted) && CounterOk()
      ensures |video| == |old(video)| + 1 && video[..|video| - 1] == old(video) && video[|video| - 1].index == index
    {
      var used := None;
      if encrypted {
        StampIv(iv, gcmIvCounter);
        WrappedCounter(Video, |video|);
        Wrap(|video|, U64);
        gcmIvCounter := (gcmIvCounter + 1) % U64;
        used := Some(iv[..]);
      }
      NumberOfWrapped(first, x);
      video := video + [Packet((low + x) % U16, index, used)];
    }

    ghost predicate CounterOk()
      reads this
    {
      gcmIvCounter == if encrypted then |video| % U64 else 0
    }

    /** One FEC block of `data` + `parity` shards; `low` is the thread's running copy of lowseq. */
    method SendBlock(iv: array<Octet>, low: Int32, data: nat, parity: nat)
      requires IvReady(iv[..]) && VideoHistory(video, encrypted) && low == Wrapped(|video|) && CounterOk()
      modifies iv, this`gcmIvCounter, this`video
      ensures IvReady(iv[..]) && VideoHistory(video, encrypted) && CounterOk()
      ensures |video| == |old(video)| + data + parity && video[..|old(video)|] == old(video)
      ensures forall k :: |old(video)| <= k < |old(video)| + data ==> video[k].index.Some?
      ensures forall k :: |old(video)| + data <= k < |video| ==> video[k].index.None?
    {
      ghost var first := |video|;
      var indexes := IndexBlock(low, first, data);
      var x := 0;
      while x < data + parity
        invariant x <= data + parity && |video| == first + x && video[..first] == old(video)
        invariant IvReady(iv[..]) && VideoHistory(video, encrypted) && CounterOk()
        invariant forall k :: first <= k < first + x && k < first + data ==> video[k].index.Some?
        invariant forall k :: first + data <= k < first + x ==> video[k].index.None?
      {
        ghost var before := video;
        SendShard(iv, low, first, x, if x < data then Some(indexes[x]) else None);
        assert forall k :: 0 <= k < |before| ==> video[k] == video[..|before|][k];
        x := x + 1;
      }
    }

    /** The first header pass: streamPacketIndex of each data shard. */
    static method IndexBlock(low: Int32, ghost first: nat, data: nat) returns (indexes: seq<nat>)
      requires low == Wrapped(first)
      ensures |indexes| == data && forall x :: 0 <= x < data ==> indexes[x] == StreamIndex(first + x)
    {
      indexes := [];
      var x := 0;
      while x < data
        invariant x <= data && |indexes| == x
        invariant forall k :: 0 <= k < x ==> indexes[k] == StreamIndex(first + k)
      {
        IndexOfWrapped(first, x);
        indexes := indexes + [(low % U32 + x) % U32 * 256 % U32];
        x := x + 1;
      }
    }

    /** All FEC blocks of a frame, given as pairs of data and parity shard counts. */
    method SendFrame(iv: array<Octet>, blocks: seq<(nat, nat)>)
      requires Valid() && IvReady(iv[..])
      modifies iv, this`lowseq, this`gcmIvCounter, this`video
      ensures Valid() && IvReady(iv[..])
      ensures old(video) <= video && |video| == |old(video)| + Shards(blocks)
    {
      var low := lowseq;
      var b := 0;
      while b < |blocks|
        invariant b <= |blocks| && low == Wrapped(|video|) && |video| == |old(video)| + Shards(blocks[..b])
        invariant old(video) <= video
        invariant IvReady(iv[..]) && VideoHistory(video, encrypted) && CounterOk()
      {
        WrappedAgain(|video|, blocks[b].0 + blocks[b].1);
        SendBlock(iv, low, blocks[b].0, blocks[b].1);
        low := Wrapped(low + (blocks[b].0 + blocks[b].1));
        assert blocks[..b + 1][..b] == blocks[..b];
        b := b + 1;
      }
      assert blocks[..b] == blocks;
      lowseq := low;
    }
  }

  /** The number of shards in these blocks. */
  function Shards(blocks: seq<(nat, nat)>): nat {
    if blocks == [] then 0 else var last := blocks[|blocks| - 1]; Shards(blocks[..|blocks| - 1]) + (last.0 + last.1)
  }

  /** Writes the counter and the 'V' into the thread's IV buffer. */
  method StampIv(iv: array<Octet>, counter: nat)
    requires IvReady(iv[..])
    modifies iv
    ensures IvReady(iv[..]) && iv[..] == Iv(Video, counter)
  {
    var bytes := LittleEndian(counter, 8);
    var k := 0;
    while k < 8
      invariant k <= 8 && IvReady(iv[..]) && iv[..k] == bytes[..k]
    {
      iv[k] := bytes[k];
      k := k + 1;
    }
    iv[11] := 0x56;
    assert iv[..8] == bytes;
    VideoIvBuilt(iv[..], counter);
  }
}
