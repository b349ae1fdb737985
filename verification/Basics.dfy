/** Shared vocabulary. */
module Basics {
  datatype Option<+T> = None | Some(value: T)

  type Byte = bv8

  /** Integer division rounding up, as the C++ code spells it: (a + (b - 1)) / b. */
  function CeilDiv(a: nat, b: nat): (q: nat)
    requires b > 0
  {
    (a + (b - 1)) / b
  }

  /** How often `x` occurs in `s`. */
  function Times<T(==)>(s: seq<T>, x: T): (n: nat)
    ensures n > 0 <==> x in s
  {
    if s == [] then 0 else (if s[0] == x then 1 else 0) + Times(s[1..], x)
  }

  lemma {:induction false} TimesConcat<T>(a: seq<T>, b: seq<T>, x: T)
    ensures Times(a + b, x) == Times(a, x) + Times(b, x)
  {
    if a == [] {
      assert a + b == b;
    } else {
      assert (a + b)[1..] == a[1..] + b;
      TimesConcat(a[1..], b, x);
    }
  }

  lemma TimesSplit<T>(s: seq<T>, i: nat, x: T)
    requires i < |s|
    ensures Times(s, x) == Times(s[..i], x) + (if s[i] == x then 1 else 0) + Times(s[i + 1..], x)
    ensures Times(s[..i] + s[i + 1..], x) == Times(s, x) - if s[i] == x then 1 else 0
  {
    TimesConcat(s[..i], s[i..], x);
    assert s[i..][1..] == s[i + 1..];
    assert s == s[..i] + s[i..];
    TimesConcat(s[..i], s[i + 1..], x);
  }

  lemma SliceOfSlice<T>(s: seq<T>, a: nat, b: nat, c: nat, d: nat)
    requires a <= b <= |s| && c <= d <= b - a
    ensures s[a..b][c..d] == s[a + c..a + d]
  {
    var inner, outer := s[a..b][c..d], s[a + c..a + d];
    forall i | 0 <= i < d - c
      ensures inner[i] == outer[i]
    {
      assert inner[i] == s[a..b][c + i];
      assert s[a..b][c + i] == s[a + (c + i)];
    }
  }
}
