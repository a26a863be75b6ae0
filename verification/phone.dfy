/** The fixed-ratio up-sampler of the phone bridge
    (cmd/mumble_phone/mumble_phone.go), which converts 8 kHz modem audio to
    48 kHz Mumble audio with its own copy of the interpolation loop. */
module Phone {
  import opened Samples
  import opened Seqs
  import opened Resampling

  const MumbleRate: int := 48000
  const ModemRate: int := 8000

  /** `int16(mumbleRate / modemRate)`. */
  const Mult: int := MumbleRate / ModemRate

  lemma MultIsSix()
    ensures Mult == 6
  {
  }

  /** Appending one input appends exactly its group, interpolated from the
      previous last input (or `prev`). */
  lemma UpSampleFromSnoc(ratio: int, prev: int16, xs: seq<int16>, s: int16)
    requires 1 <= ratio <= MaxInt16
    ensures UpSampleFrom(ratio, prev, xs + [s]) ==
      UpSampleFrom(ratio, prev, xs) + UpGroup(ratio, if |xs| == 0 then prev else xs[|xs| - 1], s)
  {
    GroupsSnoc(ratio, prev, xs, s);
    GroupsFlatten(ratio, prev, xs + [s]);
    GroupsFlatten(ratio, prev, xs);
    FlattenSnoc(Groups(ratio, prev, xs), UpGroup(ratio, if |xs| == 0 then prev else xs[|xs| - 1], s));
  }

  lemma {:induction false} GroupsSnoc(ratio: int, prev: int16, xs: seq<int16>, s: int16)
    requires 1 <= ratio <= MaxInt16
    ensures Groups(ratio, prev, xs + [s]) ==
      Groups(ratio, prev, xs) + [UpGroup(ratio, if |xs| == 0 then prev else xs[|xs| - 1], s)]
    decreases |xs|
  {
    if |xs| == 0 {
      assert xs + [s] == [s];
      assert [s][1..] == [];
    } else {
      assert (xs + [s])[1..] == xs[1..] + [s];
      GroupsSnoc(ratio, xs[0], xs[1..], s);
      if |xs| > 1 {
        assert xs[1..][|xs[1..]| - 1] == xs[|xs| - 1];
      }
    }
  }

  /** Each step of the interpolation loop extends the group built so far by
      its next entry; the last entry is the input itself. */
  lemma UpGroupPrefix(ratio: int, prev: int16, s: int16, i: int, step: int16)
    requires 1 <= ratio <= MaxInt16 && 1 <= i <= ratio
    requires step == Step(ratio, prev, s)
    ensures UpGroup(ratio, prev, s)[..i] == UpGroup(ratio, prev, s)[..i - 1] +
      [if i == ratio then s else Wrap16(prev + Wrap16(i * step))]
    ensures i == ratio ==> UpGroup(ratio, prev, s)[..i] == UpGroup(ratio, prev, s)
  {
    var g := UpGroup(ratio, prev, s);
    assert g[..i] == g[..i - 1] + [g[i - 1]];
  }

  /** The `resampler` goroutine: for every input `s` it emits
      `prev + i*((s-prev)/mult)` for i = 1..mult-1 and then `s`, in 16-bit
      arithmetic, with `prev` starting at 0. Its output is exactly
      audio.UpSample with ratio 6. */
  method Resampler(input: seq<int16>) returns (out: seq<int16>)
    ensures out == UpSample(6, input)
    ensures |out| == 6 * |input|
  {
    var mult: int16 := Mult as int16;
    assert mult == 6 by {
      MultIsSix();
    }
    var prev: int16 := 0;
    out := [];
    var j := 0;
    while j < |input|
      invariant 0 <= j <= |input|
      invariant prev == (if j == 0 then 0 else input[j - 1])
      invariant out == UpSample(6, input[..j])
    {
      var s := input[j];
      var step: int16 := QuotTrunc(Wrap16(s - prev), mult);
      assert step == Step(6, prev, s);
      var i: int16 := 1;
      ghost var before := out;
      while i < mult
        invariant 1 <= i <= mult
        invariant out == before + UpGroup(6, prev, s)[..i - 1]
      {
        out := out + [Wrap16(prev + Wrap16(i * step))];
        UpGroupPrefix(6, prev, s, i as int, step);
        i := i + 1;
      }
      out := out + [s];
      UpGroupPrefix(6, prev, s, 6, step);
      assert input[..j + 1] == input[..j] + [s];
      UpSampleFromSnoc(6, 0, input[..j], s);
      prev := s;
      j := j + 1;
    }
    assert input[..j] == input;
  }
}
