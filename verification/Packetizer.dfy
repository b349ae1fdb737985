/**
 * From an encoded frame to packets, src/stream.cpp: the frame is cut into slices with room for a
 * packet header before each, and the receiver undoes it. `h` is sizeof(video_packet_raw_t) and
 * `bs` the block size, so that each packet carries bs - h bytes of the frame.
 */
module Packetizer {
  import opened Arithmetic
  import opened Basics

  function Zeros(n: nat): (z: seq<Byte>)
    ensures |z| == n
  {
    seq(n, i => 0)
  }

  /** The number of slices of at most `p` bytes in `n` bytes. */
  function Pieces(n: nat, p: nat): nat
    requires p > 0
  {
    n / p + if n % p != 0 then 1 else 0
  }

  /** Counting the pieces is dividing with rounding up. */
  lemma PiecesCeil(n: nat, p: nat)
    requires p > 0
    ensures Pieces(n, p) == CeilDiv(n, p)
  {
    DivModDef(n, p);
    var q, r := n / p, n % p;
    if r == 0 {
      DivModIs(n + (p - 1), p, q, p - 1);
    } else {
      MulDist(q, 1, p);
      DivModIs(n + (p - 1), p, q + 1, r - 1);
    }
  }

  lemma PiecesOf(n: nat, p: nat)
    requires p > 0
    ensures n == 0 ==> Pieces(n, p) == 0
    ensures 0 < n <= p ==> Pieces(n, p) == 1
    ensures n > p ==> Pieces(n, p) == 1 + Pieces(n - p, p)
  {
    if n == 0 {
      DivModIs(n, p, 0, 0);
    } else if n < p {
      DivModIs(n, p, 0, n);
    } else if n == p {
      DivModIs(n, p, 1, 0);
    } else {
      DivModShift(n - p, p, 1);
    }
  }

  /** Slice `x` starts before the end, and only the last one can be short. */
  lemma PieceBounds(n: nat, p: nat, x: nat)
    requires p > 0 && x < Pieces(n, p)
    ensures x * p < n
    ensures x + 1 == Pieces(n, p) ==> n <= (x + 1) * p
    ensures x + 1 < Pieces(n, p) ==> (x + 1) * p < n
  {
    PiecesCeil(n, p);
    CeilAtMost(n, p, x);
    CeilAtMost(n, p, x + 1);
  }

  /** The frame with `h` zero bytes in front of each slice of `p` bytes. */
  function Interleave(h: nat, p: nat, data: seq<Byte>): (r: seq<Byte>)
    requires p > 0
    decreases |data|
  {
    if data == [] then []
    else if |data| <= p then Zeros(h) + data
    else Zeros(h) + data[..p] + Interleave(h, p, data[p..])
  }

  lemma {:induction false} InterleaveSize(h: nat, p: nat, data: seq<Byte>)
    requires p > 0
    ensures |Interleave(h, p, data)| == Pieces(|data|, p) * h + |data|
    decreases |data|
  {
    PiecesOf(|data|, p);
    if |data| > p {
      InterleaveSize(h, p, data[p..]);
      assert (1 + Pieces(|data| - p, p)) * h == h + Pieces(|data| - p, p) * h;
    }
  }

  // ----- concat_and_insert -----

  method Copy(source: seq<Byte>, target: array<Byte>, at: nat)
    requires at + |source| <= target.Length
    modifies target
    ensures target[..] == old(target[..at]) + source + old(target[at + |source|..])
  {
    var k := 0;
    while k < |source|
      invariant k <= |source|
      invariant target[..at + k] == old(target[..at]) + source[..k]
      invariant target[at + k..] == old(target[at + k..])
    {
      target[at + k] := source[k];
      k := k + 1;
    }
    assert source[..k] == source;
    assert target[..] == target[..at + k] + target[at + k..];
  }

  /** What is left of Interleave from slice `x` on, and what one more slice adds. */
  lemma InterleaveStep(h: nat, p: nat, rest: seq<Byte>, n: nat)
    requires p > 0 && rest != []
    requires n == if |rest| <= p then |rest| else p
    ensures Interleave(h, p, rest) == Zeros(h) + rest[..n] + Interleave(h, p, rest[n..])
  {
    if |rest| <= p {
      assert rest[..n] == rest && rest[n..] == [];
      assert Zeros(h) + rest + [] == Zeros(h) + rest;
    }
  }

  /** The buffer is finished up to `at`, untouched from there on, and `rest` is still to come. */
  ghost predicate Built(img: seq<Byte>, all: seq<Byte>, at: nat, h: nat, p: nat, rest: seq<Byte>)
    requires p > 0
  {
    && at <= |img| == |all|
    && img[..at] + Interleave(h, p, rest) == all
    && img[at..] == Zeros(|img| - at)
  }

  lemma SliceFits(img: seq<Byte>, all: seq<Byte>, at: nat, h: nat, p: nat, rest: seq<Byte>, n: nat)
    requires p > 0 && rest != [] && n == (if |rest| <= p then |rest| else p) && Built(img, all, at, h, p, rest)
    ensures at + h + n <= |all|
  {
    InterleaveStep(h, p, rest, n);
  }

  /** Writing one slice moves the boundary between finished and untouched past it. */
  lemma SliceWritten(img: seq<Byte>, img': seq<Byte>, all: seq<Byte>, at: nat, h: nat, p: nat, rest: seq<Byte>, n: nat)
    requires p > 0 && rest != [] && n == (if |rest| <= p then |rest| else p) && Built(img, all, at, h, p, rest)
    requires at + h + n <= |img| && img' == img[..at + h] + rest[..n] + img[at + h + n..]
    ensures Built(img', all, at + h + n, h, p, rest[n..])
  {
    InterleaveStep(h, p, rest, n);
    assert img[..at + h] == img[..at] + Zeros(h);
    assert img'[..at + h + n] == img[..at] + (Zeros(h) + rest[..n]);
    assert img[..at] + (Zeros(h) + rest[..n]) + Interleave(h, p, rest[n..]) == all;
  }

  lemma TwoCopies(before: seq<Byte>, half: seq<Byte>, after: seq<Byte>, at: nat, a: seq<Byte>, b: seq<Byte>)
    requires at + |a| + |b| <= |before| && half == before[..at] + a + before[at + |a|..]
    requires after == half[..at + |a|] + b + half[at + |a| + |b|..]
    ensures after == before[..at] + (a + b) + before[at + |a + b|..]
  {
    assert half[..at + |a|] == before[..at] + a;
    assert half[at + |a| + |b|..] == before[at + |a| + |b|..];
  }

  lemma SliceAcross(a: seq<Byte>, b: seq<Byte>, from: nat, n: nat)
    requires from <= |a| < from + n <= |a| + |b|
    ensures (a + b)[from..][..n] == a[from..] + b[..n - (|a| - from)]
  {
    assert (a + b)[from..] == a[from..] + b;
  }

  lemma SliceOfFirst(a: seq<Byte>, b: seq<Byte>, from: nat, n: nat)
    requires from + n <= |a|
    ensures (a + b)[from..][..n] == a[from..from + n]
  {
  }

  lemma SliceOfSecond(a: seq<Byte>, b: seq<Byte>, from: nat, n: nat)
    requires from + n <= |b|
    ensures (a + b)[|a| + from..][..n] == b[from..from + n]
  {
  }

  /** A slice that begins in data1 and ends in data2. */
  method CopyBoth(data1: seq<Byte>, data2: seq<Byte>, next: nat, n: nat, result: array<Byte>, at: nat)
    requires next <= |data1| < next + n <= |data1| + |data2| && at + n <= result.Length
    modifies result
    ensures result[..] == old(result[..at]) + (data1 + data2)[next..][..n] + old(result[at + n..])
  {
    var first, second := data1[next..], data2[..n - (|data1| - next)];
    ghost var before := result[..];
    Copy(first, result, at);
    ghost var half := result[..];
    Copy(second, result, at + |first|);
    TwoCopies(before, half, result[..], at, first, second);
    SliceAcross(data1, data2, next, n);
    assert before[..at] == old(result[..at]) && before[at + n..] == old(result[at + n..]);
  }

  /** The next `n` bytes of data1 ++ data2, of which `taken` are gone, copied to `at`. */
  method CopyAcross(data1: seq<Byte>, data2: seq<Byte>, inFirst: bool, next: nat, ghost taken: nat, n: nat,
                    result: array<Byte>, at: nat)
    returns (inFirst': bool, next': nat)
    requires if inFirst then next == taken <= |data1| else taken == |data1| + next
    requires taken + n <= |data1| + |data2| && at + n <= result.Length
    modifies result
    ensures if inFirst' then next' == taken + n <= |data1| else taken + n == |data1| + next'
    ensures result[..] == old(result[..at]) + (data1 + data2)[taken..][..n] + old(result[at + n..])
  {
    // only a slice that is not yet past data1 can be split
    if inFirst && next + n > |data1| {
      CopyBoth(data1, data2, next, n, result, at);
      inFirst', next' := false, n - (|data1| - next);
    } else if inFirst {
      Copy(data1[next..next + n], result, at);
      SliceOfFirst(data1, data2, taken, n);
      inFirst', next' := true, next + n;
    } else {
      Copy(data2[next..next + n], result, at);
      SliceOfSecond(data1, data2, next, n);
      inFirst', next' := false, next + n;
    }
  }

  /** The loop state of concat_and_insert: where reading has come to in the two buffers, and writing in the result. */
  ghost predicate Progress(data1: seq<Byte>, data2: seq<Byte>, inFirst: bool, next: nat, taken: nat,
                           img: seq<Byte>, all: seq<Byte>, at: nat, h: nat, p: nat)
  {
    && (if inFirst then next == taken <= |data1| else taken == |data1| + next)
    && taken <= |data1| + |data2| && p > 0
    && Built(img, all, at, h, p, (data1 + data2)[taken..])
  }

  /** One turn of the loop of concat_and_insert: leaves room for a header at `at` and copies a slice behind it. */
  method InsertSlice(h: nat, ghost p: nat, data1: seq<Byte>, data2: seq<Byte>, inFirst: bool, next: nat,
                     ghost taken: nat, n: nat, result: array<Byte>, at: nat, ghost all: seq<Byte>)
    returns (inFirst': bool, next': nat)
    requires Progress(data1, data2, inFirst, next, taken, result[..], all, at, h, p) && taken < |data1| + |data2|
    requires n == if |data1| + |data2| - taken <= p then |data1| + |data2| - taken else p
    modifies result
    ensures Progress(data1, data2, inFirst', next', taken + n, result[..], all, at + h + n, h, p)
  {
    ghost var rest := (data1 + data2)[taken..];
    ghost var before := result[..];
    SliceFits(before, all, at, h, p, rest, n);
    inFirst', next' := CopyAcross(data1, data2, inFirst, next, taken, n, result, at + h);
    SliceWritten(before, result[..], all, at, h, p, rest, n);
    assert rest[n..] == (data1 + data2)[taken + n..];
  }

  /** `x` times `stride`, as a running total. */
  ghost function Total(x: nat, stride: nat): nat {
    if x == 0 then 0 else Total(x - 1, stride) + stride
  }

  lemma {:induction false} TotalIs(x: nat, stride: nat)
    ensures Total(x, stride) == x * stride
  {
    if x > 0 {
      TotalIs(x - 1, stride);
      MulDist(x - 1, 1, stride);
    }
  }

  lemma {:induction false} TotalMono(x: nat, y: nat, stride: nat)
    requires x <= y
    ensures Total(x, stride) <= Total(y, stride)
  {
    if x < y {
      TotalMono(x, y - 1, stride);
    }
  }

  /** `elements` slices of `p` bytes hold `n` bytes, and one fewer would not. */
  ghost predicate Enough(n: nat, p: nat, elements: nat) {
    n <= Total(elements, p) && (elements > 0 ==> Total(elements - 1, p) < n)
  }

  lemma PiecesEnough(n: nat, p: nat)
    requires p > 0
    ensures Enough(n, p, Pieces(n, p))
  {
    var e := Pieces(n, p);
    PiecesCeil(n, p);
    CeilAtMost(n, p, e);
    TotalIs(e, p);
    if e > 0 {
      CeilAtMost(n, p, e - 1);
      TotalIs(e - 1, p);
    }
  }

  /** Where slice `x` of `n` bytes starts in the data and in the result. */
  ghost predicate Cursor(n: nat, p: nat, h: nat, elements: nat, x: nat, taken: nat, at: nat) {
    if x < elements then taken == Total(x, p) && at == Total(x, h + p) && taken < n else taken == n
  }

  lemma CursorStart(n: nat, p: nat, h: nat, elements: nat)
    requires Enough(n, p, elements)
    ensures Cursor(n, p, h, elements, 0, 0, 0)
  {
    if elements > 0 {
      TotalMono(0, elements - 1, p);
    }
  }

  lemma CursorStep(n: nat, p: nat, h: nat, elements: nat, x: nat, taken: nat, at: nat)
    requires p > 0 && Enough(n, p, elements) && x < elements && Cursor(n, p, h, elements, x, taken, at)
    ensures taken == x * p && at == x * (h + p)
    ensures var size := if x + 1 == elements then n - taken else p;
      size == (if n - taken <= p then n - taken else p) && Cursor(n, p, h, elements, x + 1, taken + size, at + h + size)
  {
    TotalIs(x, p);
    TotalIs(x, h + p);
    if x + 1 < elements {
      TotalMono(x + 1, elements - 1, p);
    }
  }

  /** Where slice `x` goes, and its size: a full slice, or whatever data remains for the last. */
  method Place(insertSize: nat, sliceSize0: nat, elements: nat, dataSize: nat, x: nat, ghost taken: nat, ghost at: nat)
    returns (p: nat, sliceSize: nat)
    requires sliceSize0 > 0 && Enough(dataSize, sliceSize0, elements) && x < elements
    requires Cursor(dataSize, sliceSize0, insertSize, elements, x, taken, at)
    ensures p == at && taken < dataSize && (x + 1 < elements ==> sliceSize == sliceSize0)
    ensures sliceSize == if dataSize - taken <= sliceSize0 then dataSize - taken else sliceSize0
    ensures Cursor(dataSize, sliceSize0, insertSize, elements, x + 1, taken + sliceSize, at + insertSize + sliceSize)
  {
    CursorStep(dataSize, sliceSize0, insertSize, elements, x, taken, at);
    p := x * (insertSize + sliceSize0);
    sliceSize := sliceSize0;
    if x == elements - 1 {
      sliceSize := dataSize - x * sliceSize0;
    }
  }

  /** The body of the loop of concat_and_insert. */
  method FillSlice(insertSize: nat, sliceSize0: nat, elements: nat, dataSize: nat, data1: seq<Byte>, data2: seq<Byte>,
                   inFirst: bool, next: nat, x: nat, ghost taken: nat, ghost at: nat, result: array<Byte>,
                   ghost all: seq<Byte>)
    returns (inFirst': bool, next': nat, sliceSize: nat, ghost taken': nat, ghost at': nat)
    requires sliceSize0 > 0 && dataSize == |data1| + |data2| && Enough(dataSize, sliceSize0, elements) && x < elements
    requires Cursor(dataSize, sliceSize0, insertSize, elements, x, taken, at)
    requires Progress(data1, data2, inFirst, next, taken, result[..], all, at, insertSize, sliceSize0)
    modifies result
    ensures x + 1 < elements ==> sliceSize == sliceSize0
    ensures Cursor(dataSize, sliceSize0, insertSize, elements, x + 1, taken', at')
    ensures Progress(data1, data2, inFirst', next', taken', result[..], all, at', insertSize, sliceSize0)
  {
    var p: nat;
    p, sliceSize := Place(insertSize, sliceSize0, elements, dataSize, x, taken, at);
    inFirst', next' := InsertSlice(insertSize, sliceSize0, data1, data2, inFirst, next, taken, sliceSize, result, p,
      all);
    taken', at' := taken + sliceSize, at + insertSize + sliceSize;
  }

  /** The loop of concat_and_insert. */
  method FillSlices(insertSize: nat, sliceSize0: nat, elements: nat, dataSize: nat, data1: seq<Byte>, data2: seq<Byte>,
                    result: array<Byte>, ghost all: seq<Byte>)
    returns (inFirst: bool, next: nat, ghost at: nat)
    requires sliceSize0 > 0 && dataSize == |data1| + |data2| && Enough(dataSize, sliceSize0, elements)
    requires Progress(data1, data2, true, 0, 0, result[..], all, 0, insertSize, sliceSize0)
    modifies result
    ensures Progress(data1, data2, inFirst, next, dataSize, result[..], all, at, insertSize, sliceSize0)
  {
    var sliceSize, x: nat := sliceSize0, 0;
    inFirst, next, at := true, 0, 0;
    ghost var taken: nat := 0;
    CursorStart(dataSize, sliceSize0, insertSize, elements);
    while x < elements
      invariant x <= elements
      invariant x < elements ==> sliceSize == sliceSize0
      invariant Cursor(dataSize, sliceSize0, insertSize, elements, x, taken, at)
      invariant Progress(data1, data2, inFirst, next, taken, result[..], all, at, insertSize, sliceSize0)
    {
      inFirst, next, sliceSize, taken, at :=
        FillSlice(insertSize, sliceSize, elements, dataSize, data1, data2, inFirst, next, x, taken, at, result, all);
      x := x + 1;
    }
  }

  /** concat_and_insert: the two buffers end to end, with `insertSize` zero bytes in front of every slice. */
  method ConcatAndInsert(insertSize: nat, sliceSize: nat, data1: seq<Byte>, data2: seq<Byte>)
    returns (result: array<Byte>)
    requires sliceSize > 0
    ensures fresh(result)
    ensures result[..] == Interleave(insertSize, sliceSize, data1 + data2)
  {
    var dataSize := |data1| + |data2|;
    var pad := dataSize % sliceSize != 0;
    var elements := dataSize / sliceSize + if pad then 1 else 0;
    InterleaveSize(insertSize, sliceSize, data1 + data2);
    PiecesEnough(dataSize, sliceSize);
    result := new Byte[elements * insertSize + dataSize](_ => 0);
    ghost var all := Interleave(insertSize, sliceSize, data1 + data2);
    ProgressStart(data1, data2, result[..], insertSize, sliceSize);
    ghost var at: nat;
    var inFirst, next;
    inFirst, next, at := FillSlices(insertSize, sliceSize, elements, dataSize, data1, data2, result, all);
    BuiltDone(result[..], all, at, insertSize, sliceSize, data1 + data2, dataSize);
  }

  lemma ProgressStart(data1: seq<Byte>, data2: seq<Byte>, img: seq<Byte>, h: nat, p: nat)
    requires p > 0 && |img| == |Interleave(h, p, data1 + data2)| && forall k :: 0 <= k < |img| ==> img[k] == 0
    ensures Progress(data1, data2, true, 0, 0, img, Interleave(h, p, data1 + data2), 0, h, p)
  {
    var data := data1 + data2;
    assert data[0..] == data && img[..0] + Interleave(h, p, data) == Interleave(h, p, data);
  }

  lemma BuiltDone(img: seq<Byte>, all: seq<Byte>, at: nat, h: nat, p: nat, data: seq<Byte>, taken: nat)
    requires p > 0 && taken == |data| && Built(img, all, at, h, p, data[taken..])
    ensures img == all
  {
    assert data[taken..] == [];
    assert img[..at] + [] == img[..at] && img[..at] == all;
    assert |img| == at;
  }
}
