/** Small shared vocabulary: optional values (the source's nullable `int?`,
    `DateTime?` and `string?`), the range of C#'s 32-bit `int`, and sums over
    sequences. */
module Common {

  /** A value that may be absent, standing for a C# null. */
  datatype Option<T> = None | Some(value: T)

  const MinInt32: int := -0x8000_0000
  const MaxInt32: int := 0x7fff_ffff

  predicate IsInt32(x: int) {
    MinInt32 <= x <= MaxInt32
  }

  /** `x + 1` on a C# `int` in an unchecked context: it wraps from
      `int.MaxValue` to `int.MinValue`. */
  function Int32Succ(x: int): (r: int)
    requires IsInt32(x)
    ensures IsInt32(r)
    ensures (r - x - 1) % 0x1_0000_0000 == 0
    ensures x < MaxInt32 ==> r > x
  {
    if x == MaxInt32 then MinInt32 else x + 1
  }

  /** Distinct 32-bit values have distinct successors. */
  lemma Int32SuccInjective(a: int, b: int)
    requires IsInt32(a) && IsInt32(b) && a != b
    ensures Int32Succ(a) != Int32Succ(b)
  {
  }

  /** Sum of `f` over the elements of `xs`, first to last. */
  function SumBy<T>(xs: seq<T>, f: T -> int): int
    decreases |xs|
  {
    if xs == [] then 0 else f(xs[0]) + SumBy(xs[1..], f)
  }

  lemma {:induction false} SumByAppend<T>(a: seq<T>, b: seq<T>, f: T -> int)
    ensures SumBy(a + b, f) == SumBy(a, f) + SumBy(b, f)
    decreases |a|
  {
    if a == [] {
      assert a + b == b;
    } else {
      assert (a + b)[1..] == a[1..] + b;
      SumByAppend(a[1..], b, f);
    }
  }

  /** The elements of `xs` that satisfy `p`, in their original order
      (LINQ's `Where`). */
  function Where<T(!new)>(xs: seq<T>, p: T -> bool): (r: seq<T>)
    ensures |r| <= |xs|
    ensures forall x :: x in r <==> x in xs && p(x)
    ensures forall x :: multiset(r)[x] == if p(x) then multiset(xs)[x] else 0
    decreases |xs|
  {
    if xs == [] then []
    else
      assert xs == [xs[0]] + xs[1..];
      if p(xs[0]) then [xs[0]] + Where(xs[1..], p)
      else Where(xs[1..], p)
  }

  /** A filter every element passes keeps the sequence as it is. */
  lemma {:induction false} WhereKeepsAll<T(!new)>(xs: seq<T>, p: T -> bool)
    requires forall x :: x in xs ==> p(x)
    ensures Where(xs, p) == xs
    decreases |xs|
  {
    if xs != [] {
      assert xs[0] in xs;
      WhereKeepsAll(xs[1..], p);
      assert xs == [xs[0]] + xs[1..];
    }
  }

  /** Summing over the kept elements is summing over all elements with the
      dropped ones counting zero. */
  lemma {:induction false} WhereSum<T(!new)>(xs: seq<T>, p: T -> bool, f: T -> int)
    ensures SumBy(Where(xs, p), f) == SumBy(xs, x => if p(x) then f(x) else 0)
    decreases |xs|
  {
    if xs != [] {
      WhereSum(xs[1..], p, f);
    }
  }

  /** The largest value of `f` over a non-empty sequence (LINQ's `Max`). */
  function MaxBy<T(!new)>(xs: seq<T>, f: T -> int): (m: int)
    requires |xs| > 0
    ensures forall x :: x in xs ==> f(x) <= m
    ensures exists x :: x in xs && f(x) == m
    decreases |xs|
  {
    if |xs| == 1 then f(xs[0])
    else
      var rest := MaxBy(xs[1..], f);
      if f(xs[0]) >= rest then f(xs[0]) else rest
  }

  /** The smallest value of `f` over a non-empty sequence (LINQ's `Min`). */
  function MinBy<T(!new)>(xs: seq<T>, f: T -> int): (m: int)
    requires |xs| > 0
    ensures forall x :: x in xs ==> m <= f(x)
    ensures exists x :: x in xs && f(x) == m
    decreases |xs|
  {
    if |xs| == 1 then f(xs[0])
    else
      var rest := MinBy(xs[1..], f);
      if f(xs[0]) <= rest then f(xs[0]) else rest
  }
}
