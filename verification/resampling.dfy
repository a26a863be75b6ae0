/** The two sample-rate converters of audio/resampling.go. A Go channel that
    is read until it is closed is modelled as the finite sequence of values it
    carried; the output channel is closed exactly when the function returns. */
module Resampling {
  import opened Samples
  import opened Seqs

  // ---------------------------------------------------------------------
  // Up-sampling by linear interpolation
  // ---------------------------------------------------------------------

  /** `(s - prev) / ratio`, with the subtraction wrapping in 16 bits. */
  function Step(ratio: int, prev: int16, s: int16): int16
    requires 1 <= ratio <= MaxInt16
  {
    QuotTrunc(Wrap16(s - prev), ratio)
  }

  /** `prev + i*step`, both operations wrapping in 16 bits. */
  function Interpolate(ratio: int, prev: int16, s: int16, i: int): int16
    requires 1 <= ratio <= MaxInt16
  {
    Wrap16(prev + Wrap16(i * Step(ratio, prev, s)))
  }

  /** What one input sample `s` produces: the intermediates for
      i = 1 .. ratio-1 followed by `s` itself. */
  function UpGroup(ratio: int, prev: int16, s: int16): (g: seq<int16>)
    requires 1 <= ratio <= MaxInt16
    ensures |g| == ratio
    ensures g[ratio - 1] == s
    ensures forall k :: 0 <= k < ratio - 1 ==> g[k] == Interpolate(ratio, prev, s, k + 1)
  {
    seq(ratio - 1, k requires 0 <= k < ratio - 1 => Interpolate(ratio, prev, s, k + 1)) + [s]
  }

  /** The loop of UpSample from a given previous sample on. */
  function UpSampleFrom(ratio: int, prev: int16, xs: seq<int16>): (r: seq<int16>)
    requires 1 <= ratio <= MaxInt16
    ensures |r| == ratio * |xs|
    decreases |xs|
  {
    if |xs| == 0 then []
    else UpGroup(ratio, prev, xs[0]) + UpSampleFrom(ratio, xs[0], xs[1..])
  }

  /** audio.UpSample: `prev` starts at 0. */
  function UpSample(ratio: int, xs: seq<int16>): (r: seq<int16>)
    requires 1 <= ratio <= MaxInt16
  {
    UpSampleFrom(ratio, 0, xs)
  }

  /** The sample the k-th group is interpolated from: the previous input,
      or the implicit 0 before the first one. */
  function Prev(xs: seq<int16>, i: int): int16
    requires 0 <= i < |xs|
  {
    if i == 0 then 0 else xs[i - 1]
  }

  /** The groups UpSampleFrom concatenates, one per input. */
  function Groups(ratio: int, prev: int16, xs: seq<int16>): (gs: seq<seq<int16>>)
    requires 1 <= ratio <= MaxInt16
    ensures |gs| == |xs|
    decreases |xs|
  {
    if |xs| == 0 then [] else [UpGroup(ratio, prev, xs[0])] + Groups(ratio, xs[0], xs[1..])
  }

  lemma {:induction false} GroupsFlatten(ratio: int, prev: int16, xs: seq<int16>)
    requires 1 <= ratio <= MaxInt16
    ensures Flatten(Groups(ratio, prev, xs)) == UpSampleFrom(ratio, prev, xs)
    decreases |xs|
  {
    if |xs| > 0 {
      GroupsFlatten(ratio, xs[0], xs[1..]);
      assert Groups(ratio, prev, xs)[1..] == Groups(ratio, xs[0], xs[1..]);
    }
  }

  /** Group i interpolates from input i-1 (or `prev`) to input i. */
  lemma {:induction false} GroupsAt(ratio: int, prev: int16, xs: seq<int16>, i: int)
    requires 1 <= ratio <= MaxInt16 && 0 <= i < |xs|
    ensures Groups(ratio, prev, xs)[i] == UpGroup(ratio, if i == 0 then prev else xs[i - 1], xs[i])
    decreases |xs|
  {
    if i > 0 {
      GroupsAt(ratio, xs[0], xs[1..], i - 1);
      assert xs[1..][i - 1] == xs[i];
      if i > 1 {
        assert xs[1..][i - 2] == xs[i - 1];
      }
    }
  }

  lemma GroupsUniform(ratio: int, prev: int16, xs: seq<int16>)
    requires 1 <= ratio <= MaxInt16
    ensures Uniform(Groups(ratio, prev, xs), ratio)
  {
    forall j | 0 <= j < |xs| ensures |Groups(ratio, prev, xs)[j]| == ratio {
      GroupsAt(ratio, prev, xs, j);
    }
  }

  /** Output layout: group i occupies indices i*ratio .. i*ratio + ratio - 1;
      its last entry is input i and the others interpolate from input i-1. */
  lemma UpSampleFromAt(ratio: int, prev: int16, xs: seq<int16>, i: int, k: int)
    requires 1 <= ratio <= MaxInt16
    requires 0 <= i < |xs| && 0 <= k < ratio
    ensures 0 <= i * ratio + k < |UpSampleFrom(ratio, prev, xs)|
    ensures UpSampleFrom(ratio, prev, xs)[i * ratio + k] ==
      UpGroup(ratio, if i == 0 then prev else xs[i - 1], xs[i])[k]
  {
    GroupsFlatten(ratio, prev, xs);
    GroupsUniform(ratio, prev, xs);
    GroupsAt(ratio, prev, xs, i);
    FlattenUniformAt(Groups(ratio, prev, xs), ratio, i, k);
  }

  lemma MulPred(i: int, ratio: int)
    ensures i * ratio == (i - 1) * ratio + ratio
  {
  }

  lemma MulLess(i: int, n: int, ratio: int)
    requires 0 <= i < n && ratio >= 1
    ensures i * ratio + ratio <= n * ratio
  {
    MulMonotone(ratio, i + 1, n);
    assert ratio * (i + 1) == i * ratio + ratio;
  }

  /** UpSample emits exactly `ratio` outputs per input; output i*ratio+ratio-1
      is input i, and output i*ratio+k (k < ratio-1) is
      prev + (k+1)*((s-prev)/ratio) in 16-bit arithmetic, where prev is the
      previous input or 0 for the first. */
  lemma UpSampleAt(ratio: int, xs: seq<int16>, i: int, k: int)
    requires 1 <= ratio <= MaxInt16
    requires 0 <= i < |xs| && 0 <= k < ratio
    ensures |UpSample(ratio, xs)| == ratio * |xs|
    ensures 0 <= i * ratio + k < |UpSample(ratio, xs)|
    ensures UpSample(ratio, xs)[i * ratio + k] ==
      if k == ratio - 1 then xs[i] else Interpolate(ratio, Prev(xs, i), xs[i], k + 1)
  {
    UpSampleFromAt(ratio, 0, xs, i, k);
  }

  /** With ratio 1 there is nothing to interpolate and UpSample is the identity. */
  lemma {:induction false} UpSampleRatioOne(xs: seq<int16>)
    ensures UpSample(1, xs) == xs
  {
    var r := UpSample(1, xs);
    assert |r| == |xs|;
    forall i | 0 <= i < |xs| ensures r[i] == xs[i] {
      UpSampleAt(1, xs, i, 0);
    }
  }

  /** The first group ramps up from the implicit zero:
      UpSample(2, [0, 10]) == [0, 0, 5, 10]. */
  lemma UpSampleExample()
    ensures UpSample(2, [0, 10]) == [0, 0, 5, 10]
  {
    var xs: seq<int16> := [0, 10];
    assert UpGroup(2, 0, 0) == [0, 0];
    assert Step(2, 0, 10) == 5;
    assert UpGroup(2, 0, 10) == [5, 10];
    assert xs[1..][1..] == [];
    assert UpSampleFrom(2, 10, []) == [];
    assert UpSampleFrom(2, 0, [10]) == [5, 10] + UpSampleFrom(2, 10, []);
  }

  // ---------------------------------------------------------------------
  // Down-sampling by block averaging
  // ---------------------------------------------------------------------

  /** The accumulator of DownSample: how many samples since the last emit and
      their (unbounded) sum. */
  datatype Accumulator = Accumulator(num: int, sum: int)

  /** One iteration of DownSample's loop: the new accumulator and what is
      written to `out` (nothing or one sample). */
  function DownStep(ratio: int, acc: Accumulator, s: int16): (Accumulator, seq<int16>)
    requires ratio >= 1 && acc.num >= 0
  {
    var num := acc.num + 1;
    var sum := acc.sum + s;
    if num >= ratio then (Accumulator(0, 0), [Wrap16(QuotTrunc(sum, num))])
    else (Accumulator(num, sum), [])
  }

  /** Between iterations the counter stays below `ratio`, so the `num >= ratio`
      test fires exactly when `num` reaches `ratio`. */
  lemma DownStepInvariant(ratio: int, acc: Accumulator, s: int16)
    requires ratio >= 1 && 0 <= acc.num < ratio
    ensures 0 <= DownStep(ratio, acc, s).0.num < ratio
    ensures |DownStep(ratio, acc, s).1| == 1 <==> acc.num + 1 == ratio
    ensures |DownStep(ratio, acc, s).1| == 0 <==> acc.num + 1 < ratio
  {
  }

  /** The loop of DownSample from a given accumulator state on. */
  function DownRun(ratio: int, acc: Accumulator, xs: seq<int16>): seq<int16>
    requires ratio >= 1 && 0 <= acc.num < ratio
    decreases |xs|
  {
    if |xs| == 0 then []
    else
      var (acc', emitted) := DownStep(ratio, acc, xs[0]);
      emitted + DownRun(ratio, acc', xs[1..])
  }

  /** audio.DownSample: one output per complete block of `ratio` inputs. */
  function DownSample(ratio: int, xs: seq<int16>): (r: seq<int16>)
    requires ratio >= 1
    ensures |r| == |xs| / ratio
  {
    assert Sum([]) == 0 && [] + xs == xs;
    DownRunIsBlockMeans(ratio, [], xs);
    BlockMeansLength(ratio, xs);
    DownRun(ratio, Accumulator(0, 0), xs)
  }

  /** Reference definition: the truncated mean of every complete block of
      `ratio` consecutive inputs, in order; an incomplete tail yields nothing. */
  function BlockMeans(ratio: int, xs: seq<int>): seq<int>
    requires ratio >= 1
    decreases |xs|
  {
    if |xs| < ratio then [] else [QuotTrunc(Sum(xs[..ratio]), ratio)] + BlockMeans(ratio, xs[ratio..])
  }

  lemma MeanIsInt16(xs: seq<int>)
    requires |xs| > 0
    requires forall i :: 0 <= i < |xs| ==> MinInt16 <= xs[i] <= MaxInt16
    ensures MinInt16 <= QuotTrunc(Sum(xs), |xs|) <= MaxInt16
  {
    TruncatedMeanBetween(xs, MinInt16, MaxInt16);
  }

  lemma {:induction false} DownRunIsBlockMeans(ratio: int, pending: seq<int16>, xs: seq<int16>)
    requires ratio >= 1 && |pending| < ratio
    ensures DownRun(ratio, Accumulator(|pending|, Sum(pending)), xs) == BlockMeans(ratio, pending + xs)
    decreases |xs|
  {
    if |xs| == 0 {
      assert pending + xs == pending;
    } else {
      var p := pending + [xs[0]];
      assert pending + xs == p + xs[1..];
      SumSnoc(pending, xs[0]);
      if |p| == ratio {
        MeanIsInt16(p);
        BlockMeansCons(ratio, p, xs[1..]);
        DownRunIsBlockMeans(ratio, [], xs[1..]);
        assert [] + xs[1..] == xs[1..];
      } else {
        DownRunIsBlockMeans(ratio, p, xs[1..]);
      }
    }
  }

  lemma SumSnoc(xs: seq<int16>, x: int16)
    ensures Sum(xs + [x]) == Sum(xs) + x
  {
    assert (xs + [x])[..|xs|] == xs;
  }

  /** A complete first block contributes its mean and the rest follows. */
  lemma BlockMeansCons(ratio: int, p: seq<int>, rest: seq<int>)
    requires ratio >= 1 && |p| == ratio
    ensures BlockMeans(ratio, p + rest) == [QuotTrunc(Sum(p), ratio)] + BlockMeans(ratio, rest)
  {
    assert (p + rest)[..ratio] == p;
    assert (p + rest)[ratio..] == rest;
  }

  /** DownSample is the sequence of block means: it emits one value per
      complete block of `ratio` inputs and silently drops the < ratio trailing
      inputs. */
  lemma DownSampleIsBlockMeans(ratio: int, xs: seq<int16>)
    requires ratio >= 1
    ensures DownSample(ratio, xs) == BlockMeans(ratio, xs)
  {
    assert Sum([]) == 0 && [] + xs == xs;
    DownRunIsBlockMeans(ratio, [], xs);
  }

  lemma {:induction false} BlockMeansLength(ratio: int, xs: seq<int>)
    requires ratio >= 1
    ensures |BlockMeans(ratio, xs)| == |xs| / ratio
    decreases |xs|
  {
    if |xs| >= ratio {
      BlockMeansLength(ratio, xs[ratio..]);
      DivShift(|xs|, ratio);
    }
  }

  /** Mean i is the truncated mean of block i. */
  lemma {:induction false} BlockMeansAt(ratio: int, xs: seq<int>, i: int)
    requires ratio >= 1
    requires 0 <= i < |xs| / ratio
    ensures i * ratio + ratio <= |xs|
    ensures |BlockMeans(ratio, xs)| == |xs| / ratio
    ensures BlockMeans(ratio, xs)[i] == QuotTrunc(Sum(xs[i * ratio..i * ratio + ratio]), ratio)
    decreases |xs|
  {
    BlockIndex(i, |xs|, ratio);
    BlockMeansLength(ratio, xs);
    if i > 0 {
      NextBlockCount(|xs|, ratio, i);
      BlockMeansAt(ratio, xs[ratio..], i - 1);
      ShiftBlock(xs, ratio, i);
    }
  }

  lemma NextBlockCount(n: int, ratio: int, i: int)
    requires ratio >= 1 && 1 <= i < n / ratio
    ensures ratio <= n && i - 1 < (n - ratio) / ratio
  {
    DivShift(n, ratio);
  }

  /** Block i of xs is block i-1 of xs without its first block. */
  lemma ShiftBlock<T>(xs: seq<T>, ratio: int, i: int)
    requires ratio >= 1 && 1 <= i && i * ratio + ratio <= |xs|
    ensures ratio <= |xs| && 0 <= (i - 1) * ratio
    ensures xs[ratio..][(i - 1) * ratio..(i - 1) * ratio + ratio] == xs[i * ratio..i * ratio + ratio]
  {
    MulPred(i, ratio);
    MulMonotone(ratio, 0, i - 1);
  }

  lemma BlockIndex(i: int, n: nat, ratio: int)
    requires ratio >= 1 && 0 <= i < n / ratio
    ensures 0 <= i * ratio && i * ratio + ratio <= n
  {
    MulMonotone(ratio, i + 1, n / ratio);
    MulMonotone(ratio, 0, i);
    assert ratio * (i + 1) == i * ratio + ratio;
    DivFacts(n, ratio);
  }

  /** Removing one block lowers the block count by one. */
  lemma DivShift(n: int, ratio: int)
    requires ratio >= 1 && n >= ratio
    ensures (n - ratio) / ratio == n / ratio - 1
  {
    var q := n / ratio;
    var r := n % ratio;
    assert n == ratio * q + r;
    assert n - ratio == ratio * (q - 1) + r;
    DivUnique(n - ratio, ratio, q - 1, r);
  }

  /** Output i of DownSample is the truncated mean of inputs
      i*ratio .. i*ratio + ratio - 1. */
  lemma DownSampleAt(ratio: int, xs: seq<int16>, i: int)
    requires ratio >= 1
    requires 0 <= i < |xs| / ratio
    ensures i * ratio + ratio <= |xs|
    ensures DownSample(ratio, xs)[i] == QuotTrunc(Sum(xs[i * ratio..i * ratio + ratio]), ratio)
  {
    DownSampleIsBlockMeans(ratio, xs);
    BlockMeansAt(ratio, xs, i);
  }

  /** Each output lies between any lower and upper bound of its block. */
  lemma DownSampleBetween(ratio: int, xs: seq<int16>, i: int, lo: int, hi: int)
    requires ratio >= 1
    requires 0 <= i < |xs| / ratio
    requires i * ratio + ratio <= |xs| && AllBetween(xs[i * ratio..i * ratio + ratio], lo, hi)
    ensures lo <= DownSample(ratio, xs)[i] <= hi
  {
    DownSampleAt(ratio, xs, i);
    TruncatedMeanBetween(xs[i * ratio..i * ratio + ratio], lo, hi);
  }

  /** With ratio 1 every sample is its own block, so DownSample is the identity. */
  lemma DownSampleRatioOne(xs: seq<int16>)
    ensures DownSample(1, xs) == xs
  {
    forall i | 0 <= i < |xs| ensures DownSample(1, xs)[i] == xs[i] {
      DownSampleAt(1, xs, i);
      var b := xs[i..i + 1];
      assert b[..0] == [];
      assert Sum(b) == xs[i];
    }
  }

  // ---------------------------------------------------------------------
  // Up-sampling followed by down-sampling
  // ---------------------------------------------------------------------

  /** Up-sampling a constant signal and down-sampling it again by the same
      ratio gives one sample per input, and every block after the first (the
      first ramps up from the implicit zero) averages back to the constant. */
  lemma UpThenDownConstant(ratio: int, c: int16, xs: seq<int16>)
    requires 1 <= ratio <= MaxInt16
    requires forall i :: 0 <= i < |xs| ==> xs[i] == c
    ensures |DownSample(ratio, UpSample(ratio, xs))| == |xs|
    ensures forall i :: 1 <= i < |xs| ==> DownSample(ratio, UpSample(ratio, xs))[i] == c
  {
    var ys := UpSample(ratio, xs);
    DivUnique(ratio * |xs|, ratio, |xs|, 0);
    forall i | 1 <= i < |xs|
      ensures DownSample(ratio, ys)[i] == c
    {
      ConstantBlock(ratio, c, xs, i);
    }
  }

  /** Block i >= 1 of an up-sampled constant consists of the constant only. */
  lemma ConstantBlock(ratio: int, c: int16, xs: seq<int16>, i: int)
    requires 1 <= ratio <= MaxInt16
    requires forall i :: 0 <= i < |xs| ==> xs[i] == c
    requires 1 <= i < |xs|
    ensures |UpSample(ratio, xs)| / ratio == |xs|
    ensures DownSample(ratio, UpSample(ratio, xs))[i] == c
  {
    var ys := UpSample(ratio, xs);
    var n := |xs|;
    assert |ys| == ratio * n;
    DivUnique(ratio * n, ratio, n, 0);
    assert i < |ys| / ratio;
    DownSampleAt(ratio, ys, i);
    var lo := i * ratio;
    var block := ys[lo..lo + ratio];
    assert |block| == ratio;
    assert ratio <= lo by {
      MulMonotone(ratio, 1, i);
    }
    assert lo + ratio <= ratio * n;
    forall k | 0 <= k < ratio ensures block[k] == c {
      UpSampledConstantAt(ratio, c, xs, lo + k);
    }
    assert AllBetween(block, c, c);
    SumBounds(block, c, c);
    QuotBetween(Sum(block), ratio, c, c);
  }

  lemma UpSampledConstantAt(ratio: int, c: int16, xs: seq<int16>, j: int)
    requires 1 <= ratio <= MaxInt16
    requires forall i :: 0 <= i < |xs| ==> xs[i] == c
    requires ratio <= j < ratio * |xs|
    ensures UpSample(ratio, xs)[j] == c
  {
    var i := j / ratio;
    var k := j % ratio;
    SplitIndex(ratio, |xs|, j);
    UpSampleAt(ratio, xs, i, k);
    assert Prev(xs, i) == c;
    InterpolateFlat(ratio, c, k + 1);
  }

  /** An index past the first group of n groups lies in group j/ratio, at
      offset j%ratio. */
  lemma SplitIndex(ratio: int, n: int, j: int)
    requires ratio >= 1 && ratio <= j < ratio * n
    ensures j == (j / ratio) * ratio + j % ratio && 0 <= j % ratio < ratio
    ensures 1 <= j / ratio < n
  {
    var i := j / ratio;
    DivFacts(j, ratio);
    MulCancel(ratio, n, i);
    MulCancel(ratio, i + 1, 1);
  }

  /** Interpolating between two equal samples stays on them. */
  lemma InterpolateFlat(ratio: int, c: int16, i: int)
    requires 1 <= ratio <= MaxInt16
    ensures Interpolate(ratio, c, c, i) == c
  {
    assert Step(ratio, c, c) == 0;
  }

  // ---------------------------------------------------------------------
  // Interpolation without 16-bit wrap-around
  // ---------------------------------------------------------------------

  /** Inputs whose difference to their predecessor (0 for the first) fits
      in 16 bits, so that `s - prev` does not wrap. */
  ghost predicate NoWrap(xs: seq<int16>)
  {
    forall i :: 0 <= i < |xs| ==> MinInt16 <= xs[i] - Prev(xs, i) <= MaxInt16
  }

  /** `prev + i*((s-prev)/ratio)` computed without wrap-around: it always
      lies between `prev` and `s`. */
  function Ramp(ratio: int, prev: int16, s: int16, i: int): (v: int16)
    requires 1 <= ratio <= MaxInt16 && 0 <= i <= ratio
    ensures Min(prev, s) <= v <= Max(prev, s)
  {
    var d := s - prev;
    var q := QuotTrunc(d, ratio);
    assert Min(prev, s) <= prev + i * q <= Max(prev, s) by {
      if d >= 0 {
        MulMonotone(q, i, ratio);
      } else {
        MulMonotone(-q, i, ratio);
      }
    }
    prev + i * q
  }

  /** One group of the corrected up-sampler. */
  function WideGroup(ratio: int, prev: int16, s: int16): (g: seq<int16>)
    requires 1 <= ratio <= MaxInt16
    ensures |g| == ratio
  {
    seq(ratio - 1, k requires 0 <= k < ratio - 1 => Ramp(ratio, prev, s, k + 1)) + [s]
  }

  /** The corrected up-sampler: the difference is taken in full precision. */
  function UpSampleWideFrom(ratio: int, prev: int16, xs: seq<int16>): (r: seq<int16>)
    requires 1 <= ratio <= MaxInt16
    ensures |r| == ratio * |xs|
    decreases |xs|
  {
    if |xs| == 0 then []
    else WideGroup(ratio, prev, xs[0]) + UpSampleWideFrom(ratio, xs[0], xs[1..])
  }

  function UpSampleWide(ratio: int, xs: seq<int16>): (r: seq<int16>)
    requires 1 <= ratio <= MaxInt16
  {
    UpSampleWideFrom(ratio, 0, xs)
  }

  /** Every sample of a corrected group lies between the two inputs it
      interpolates, and the group ends with the new input. */
  lemma WideGroupBetween(ratio: int, prev: int16, s: int16)
    requires 1 <= ratio <= MaxInt16
    ensures WideGroup(ratio, prev, s)[ratio - 1] == s
    ensures forall k :: 0 <= k < ratio ==> Min(prev, s) <= WideGroup(ratio, prev, s)[k] <= Max(prev, s)
  {
  }

  /** As written, the subtraction wraps: between -20000 and 20000 the
      interpolated sample is -32768 instead of 0, outside the segment. */
  lemma UpGroupWrapCounterexample()
    ensures UpGroup(2, -20000, 20000) == [-32768, 20000]
    ensures WideGroup(2, -20000, 20000) == [0, 20000]
    ensures UpSample(2, [-20000, 20000]) == [-10000, -20000, -32768, 20000]
  {
    assert Wrap16(20000 - (-20000)) == -25536;
    assert Step(2, -20000, 20000) == -12768;
    assert Interpolate(2, -20000, 20000, 1) == -32768;
    assert Ramp(2, -20000, 20000, 1) == 0;
    assert Step(2, 0, -20000) == -10000;
    var xs: seq<int16> := [-20000, 20000];
    assert UpGroup(2, 0, -20000) == [-10000, -20000];
    assert xs[1..] == [20000];
    assert UpSampleFrom(2, 20000, []) == [];
    assert UpSampleFrom(2, -20000, [20000]) == [-32768, 20000] + UpSampleFrom(2, 20000, []);
  }

  /** Where no difference wraps, the code as written and the corrected
      up-sampler agree sample for sample. */
  lemma {:induction false} UpSampleAgreesWhenNoWrap(ratio: int, prev: int16, xs: seq<int16>)
    requires 1 <= ratio <= MaxInt16
    requires |xs| > 0 ==> MinInt16 <= xs[0] - prev <= MaxInt16
    requires forall i :: 1 <= i < |xs| ==> MinInt16 <= xs[i] - xs[i - 1] <= MaxInt16
    ensures UpSampleFrom(ratio, prev, xs) == UpSampleWideFrom(ratio, prev, xs)
    decreases |xs|
  {
    if |xs| > 0 {
      var s := xs[0];
      assert UpGroup(ratio, prev, s) == WideGroup(ratio, prev, s) by {
        forall k | 0 <= k < ratio - 1
          ensures UpGroup(ratio, prev, s)[k] == WideGroup(ratio, prev, s)[k]
        {
          var v := Ramp(ratio, prev, s, k + 1);
          assert Step(ratio, prev, s) == QuotTrunc(s - prev, ratio);
          assert Wrap16((k + 1) * Step(ratio, prev, s)) == v - prev;
        }
      }
      UpSampleAgreesWhenNoWrap(ratio, s, xs[1..]);
    }
  }

  lemma UpSampleNoWrapIsWide(ratio: int, xs: seq<int16>)
    requires 1 <= ratio <= MaxInt16
    requires NoWrap(xs)
    ensures UpSample(ratio, xs) == UpSampleWide(ratio, xs)
  {
    if |xs| > 0 {
      assert Prev(xs, 0) == 0;
    }
    forall i | 1 <= i < |xs| ensures MinInt16 <= xs[i] - xs[i - 1] <= MaxInt16 {
      assert Prev(xs, i) == xs[i - 1];
    }
    UpSampleAgreesWhenNoWrap(ratio, 0, xs);
  }
}
