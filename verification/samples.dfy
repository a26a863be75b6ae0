/** Go's fixed-width integer semantics as used by the audio pipeline:
    16-bit signed samples, bytes, two's-complement wrap-around and
    division that truncates toward zero. */
module Samples {

  const MinInt16: int := -0x8000
  const MaxInt16: int := 0x7FFF

  /** A 16-bit signed PCM sample (Go `int16`). */
  type int16 = x: int | -0x8000 <= x < 0x8000

  /** An 8-bit unsigned byte (Go `byte`). */
  type byte = x: int | 0 <= x < 0x100

  /** Two's-complement truncation of an arbitrary integer to 16 bits, which is
      what every Go `int16` operation and conversion does on overflow. */
  function Wrap16(x: int): (r: int16)
    ensures (r - x) % 0x1_0000 == 0
    ensures MinInt16 <= x <= MaxInt16 ==> r == x
  {
    var m := x % 0x1_0000;
    if m < 0x8000 then m else m - 0x1_0000
  }

  /** Go's integer division by a positive divisor: the quotient is truncated
      toward zero (Dafny's own `/` rounds toward negative infinity). */
  function QuotTrunc(a: int, b: int): (q: int)
    requires b > 0
    ensures a >= 0 ==> q == a / b
    ensures if a >= 0 then b * q <= a < b * q + b else b * q - b < a <= b * q
    ensures if a >= 0 then 0 <= q <= a else a <= q <= 0
  {
    if a >= 0 then DivFacts(a, b); a / b
    else DivFacts(-a, b); -((-a) / b)
  }

  lemma DivFacts(a: nat, b: int)
    requires b > 0
    ensures b * (a / b) <= a < b * (a / b) + b
    ensures 0 <= a / b <= a
  {
    var q := a / b;
    assert a == b * q + a % b;
    MulMonotone(q, 1, b);
  }

  /** Clamping to the 16-bit signed range (saturating arithmetic). */
  function Clamp16(x: int): (r: int16)
    ensures r == x <==> MinInt16 <= x <= MaxInt16
    ensures x > MaxInt16 ==> r == MaxInt16
    ensures x < MinInt16 ==> r == MinInt16
  {
    if x > MaxInt16 then MaxInt16 else if x < MinInt16 then MinInt16 else x
  }

  function Sum(xs: seq<int>): int
  {
    if |xs| == 0 then 0 else Sum(xs[..|xs| - 1]) + xs[|xs| - 1]
  }

  ghost predicate AllBetween(xs: seq<int>, lo: int, hi: int)
  {
    forall i :: 0 <= i < |xs| ==> lo <= xs[i] <= hi
  }

  /** A sum of values that all lie in [lo, hi] lies in [|xs|*lo, |xs|*hi]. */
  lemma {:induction false} SumBounds(xs: seq<int>, lo: int, hi: int)
    requires AllBetween(xs, lo, hi)
    ensures |xs| * lo <= Sum(xs) <= |xs| * hi
  {
    if |xs| > 0 {
      var init := xs[..|xs| - 1];
      assert AllBetween(init, lo, hi) by {
        forall i | 0 <= i < |init| ensures lo <= init[i] <= hi {
          assert init[i] == xs[i];
        }
      }
      SumBounds(init, lo, hi);
      assert (|xs| - 1) * lo + lo == |xs| * lo;
      assert (|xs| - 1) * hi + hi == |xs| * hi;
    }
  }

  /** The truncated mean of a non-empty block lies between any common lower
      and upper bound of the block's values. */
  lemma TruncatedMeanBetween(xs: seq<int>, lo: int, hi: int)
    requires |xs| > 0
    requires AllBetween(xs, lo, hi)
    ensures lo <= QuotTrunc(Sum(xs), |xs|) <= hi
  {
    SumBounds(xs, lo, hi);
    QuotBetween(Sum(xs), |xs|, lo, hi);
  }

  lemma QuotBetween(s: int, n: int, lo: int, hi: int)
    requires n > 0
    requires n * lo <= s <= n * hi
    ensures lo <= QuotTrunc(s, n) <= hi
  {
    var q := QuotTrunc(s, n);
    assert n * (q + 1) == n * q + n;
    assert n * (q - 1) == n * q - n;
    MulCancel(n, q + 1, lo);
    MulCancel(n, hi, q - 1);
  }

  /** Quotient and remainder determine each other. */
  lemma DivUnique(a: int, b: int, q: int, r: int)
    requires b > 0 && 0 <= r < b && a == b * q + r
    ensures a / b == q
  {
    var q' := a / b;
    var r' := a % b;
    assert b * q + r == b * q' + r';
    assert b * (q - q') == r' - r;
    assert b * (q' - q) == r - r';
    MulCancel(b, 1, q - q');
    MulCancel(b, 1, q' - q);
  }

  lemma MulCancel(n: int, a: int, b: int)
    requires n > 0
    requires n * a > n * b
    ensures a > b
  {
    if a <= b {
      MulMonotone(n, a, b);
    }
  }

  lemma MulMonotone(n: nat, a: int, b: int)
    requires a <= b
    ensures n * a <= n * b
  {
  }
}

/** Generic sequence helpers shared by several components. */
module Seqs {

  /** Concatenation of a sequence of sequences. */
  function Flatten<T>(xss: seq<seq<T>>): seq<T>
  {
    if |xss| == 0 then [] else xss[0] + Flatten(xss[1..])
  }

  /** `k` copies of `xs`, one after the other. */
  function Repeat<T>(xs: seq<T>, k: nat): seq<T>
  {
    if k == 0 then [] else xs + Repeat(xs, k - 1)
  }

  lemma {:induction false} RepeatLength<T>(xs: seq<T>, k: nat)
    ensures |Repeat(xs, k)| == k * |xs|
  {
    if k > 0 {
      RepeatLength(xs, k - 1);
    }
  }

  lemma {:induction false} FlattenAppend<T>(xss: seq<seq<T>>, yss: seq<seq<T>>)
    ensures Flatten(xss + yss) == Flatten(xss) + Flatten(yss)
  {
    if |xss| == 0 {
      assert xss + yss == yss;
    } else {
      assert (xss + yss)[1..] == xss[1..] + yss;
      FlattenAppend(xss[1..], yss);
    }
  }

  lemma FlattenSnoc<T>(xss: seq<seq<T>>, ys: seq<T>)
    ensures Flatten(xss + [ys]) == Flatten(xss) + ys
  {
    FlattenAppend(xss, [ys]);
    assert Flatten([ys]) == ys + Flatten([ys][1..]);
    assert [ys][1..] == [];
  }

  /** Every piece has length `n`. */
  ghost predicate Uniform<T>(xss: seq<seq<T>>, n: nat)
  {
    forall j :: 0 <= j < |xss| ==> |xss[j]| == n
  }

  /** Concatenating pieces of length `n` puts element k of piece i at
      index i*n + k. */
  lemma {:induction false} FlattenUniformAt<T>(xss: seq<seq<T>>, n: nat, i: nat, k: nat)
    requires Uniform(xss, n) && i < |xss| && k < n
    ensures |Flatten(xss)| == n * |xss|
    ensures i * n + k < |Flatten(xss)| && Flatten(xss)[i * n + k] == xss[i][k]
    decreases i
  {
    var rest := xss[1..];
    assert Uniform(rest, n);
    FlattenUniformLength(rest, n);
    assert n * |xss| == n + n * |rest|;
    if i > 0 {
      FlattenUniformAt(rest, n, i - 1, k);
      assert i * n + k == n + ((i - 1) * n + k);
    }
  }

  lemma {:induction false} FlattenUniformLength<T>(xss: seq<seq<T>>, n: nat)
    requires Uniform(xss, n)
    ensures |Flatten(xss)| == n * |xss|
  {
    if |xss| > 0 {
      assert Uniform(xss[1..], n);
      FlattenUniformLength(xss[1..], n);
    }
  }

  function Min(a: int, b: int): int
  {
    if a < b then a else b
  }

  function Max(a: int, b: int): int
  {
    if a < b then b else a
  }
}
