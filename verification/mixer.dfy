/** The receive-side mixer of mumble/audio_streamer.go. Every incoming
    voice stream feeds a buffered channel of samples; the mixer emits one
    mixed sample per round once some stream has a jitter buffer's worth
    queued, taking one sample from every stream, adding them with
    saturation, and forgetting streams whose channel is closed and drained.
    Goroutines are replaced by explicit producer operations and the
    channels by their contents. */
module Mixer {
  import opened Samples
  import opened Errors

  /** Samples a stream must have queued before the mixer emits (20 ms). */
  const JitterBufferSize: int := 960

  /** Capacity of each stream's channel. */
  const ChannelCapacity: int := 2048

  /** One voice stream: the samples waiting in its channel, and whether the
      producer has closed it. A stream whose producer has not started yet
      behaves like an open, empty one. */
  datatype AudioStream = AudioStream(queue: seq<int16>, closed: bool)

  /** Closed and nothing left to receive: the state in which a receive
      reports `ok == false`. */
  predicate Drained(a: AudioStream)
  {
    a.closed && |a.queue| == 0
  }

  /** AudioStream.NumSamples: `len` of the channel. */
  function NumSamples(a: AudioStream): nat
  {
    |a.queue|
  }

  /** The result of AudioStream.Sample: the value, the `ok` flag, and the
      stream afterwards. */
  datatype Received = Received(v: int16, ok: bool, rest: AudioStream)

  /** AudioStream.Sample: a non-blocking receive. A queued sample is taken;
      a closed, drained channel reports `(0, false)`; an open, empty one
      falls to the `default` branch and reports `(0, true)`. */
  function Sample(a: AudioStream): (r: Received)
    ensures r.ok <==> !Drained(a)
    ensures |a.queue| > 0 ==> r.v == a.queue[0] && r.rest == a.(queue := a.queue[1..])
    ensures |a.queue| == 0 ==> r.v == 0 && r.rest == a
  {
    if |a.queue| > 0 then Received(a.queue[0], true, a.(queue := a.queue[1..]))
    else if a.closed then Received(0, false, a)
    else Received(0, true, a)
  }

  /** One send of the producer goroutine in Start: it blocks (returns
      `false`, nothing changes) while the channel is full. */
  function Send(a: AudioStream, v: int16): (r: (AudioStream, bool))
    requires !a.closed
    ensures r.1 <==> |a.queue| < ChannelCapacity
    ensures r.1 ==> r.0 == a.(queue := a.queue + [v])
    ensures !r.1 ==> r.0 == a
  {
    if |a.queue| < ChannelCapacity then (a.(queue := a.queue + [v]), true) else (a, false)
  }

  /** The end of Start: the event's packets are exhausted and the channel
      is closed. */
  function Close(a: AudioStream): (r: AudioStream)
    ensures r.queue == a.queue && r.closed
  {
    a.(closed := true)
  }

  /** What a receiver sees of a stream: its samples in order, ending with
      `(0, false)` once closed. Sending appends and receiving takes from
      the front, so the channel is first-in first-out. */
  lemma SendThenSample(a: AudioStream, v: int16)
    requires !a.closed && |a.queue| < ChannelCapacity
    ensures var b := Send(a, v).0;
      if |a.queue| == 0 then Sample(b) == Received(v, true, a)
      else Sample(b).v == a.queue[0] && Sample(b).rest == Send(Sample(a).rest, v).0
  {
    var b := Send(a, v).0;
    if |a.queue| > 0 {
      assert b.queue[1..] == a.queue[1..] + [v];
    } else {
      assert b.queue[1..] == [];
    }
  }

  /** addSample: 16-bit addition saturating at the int16 limits. */
  function AddSample(a: int16, b: int16): (c: int16)
    ensures c == Clamp16(a + b)
  {
    if b > 0 then
      if a > MaxInt16 - b then MaxInt16 else a + b
    else
      if a < MinInt16 - b then MinInt16 else a + b
  }

  /** Saturating addition is commutative, and adding silence changes
      nothing. */
  lemma AddSampleLaws(a: int16, b: int16)
    ensures AddSample(a, b) == AddSample(b, a)
    ensures AddSample(a, 0) == a
    ensures MinInt16 <= a + b <= MaxInt16 ==> AddSample(a, b) == a + b
  {
  }

  /** Saturating addition is not associative, so the order in which the
      mixer visits streams can matter. */
  lemma AddSampleNotAssociative()
    ensures AddSample(AddSample(MaxInt16, 1), -1) != AddSample(MaxInt16, AddSample(1, -1))
  {
  }

  // ---------------------------------------------------------------------
  // The streamer
  // ---------------------------------------------------------------------

  /** AudioStreamer: every stream ever opened (`pool`, indexed by identity)
      and the identities the mixer still visits (`ins`), in order. */
  datatype Streamer = Streamer(pool: seq<AudioStream>, ins: seq<nat>)

  ghost predicate Distinct(ids: seq<nat>)
  {
    forall i, j :: 0 <= i < j < |ids| ==> ids[i] != ids[j]
  }

  ghost predicate InPool(ids: seq<nat>, n: nat)
  {
    forall i :: 0 <= i < |ids| ==> ids[i] < n
  }

  ghost predicate Valid(st: Streamer)
  {
    InPool(st.ins, |st.pool|) && Distinct(st.ins)
    && forall k :: 0 <= k < |st.pool| ==> |st.pool[k].queue| <= ChannelCapacity
  }

  /** OnAudioStream: a new, not yet started stream is appended to `ins`. */
  function OnAudioStream(st: Streamer): (r: Streamer)
    requires Valid(st)
    ensures Valid(r)
    ensures r.pool == st.pool + [AudioStream([], false)] && r.ins == st.ins + [|st.pool|]
  {
    var r := Streamer(st.pool + [AudioStream([], false)], st.ins + [|st.pool|]);
    assert forall i :: 0 <= i < |st.ins| ==> r.ins[i] == st.ins[i];
    r
  }

  /** The first loop of `sample`: the longest queue among the visited
      streams, 0 if there are none. */
  function MaxBuffered(pool: seq<AudioStream>, ids: seq<nat>): (m: nat)
    requires InPool(ids, |pool|)
    ensures forall i :: 0 <= i < |ids| ==> NumSamples(pool[ids[i]]) <= m
    ensures m == 0 || exists i :: 0 <= i < |ids| && NumSamples(pool[ids[i]]) == m
  {
    if |ids| == 0 then 0
    else
      assert InPool(ids[..|ids| - 1], |pool|);
      var m := MaxBuffered(pool, ids[..|ids| - 1]);
      var n := NumSamples(pool[ids[|ids| - 1]]);
      assert forall i :: 0 <= i < |ids| - 1 ==> ids[i] == ids[..|ids| - 1][i];
      if n > m then n else m
  }

  /** The result of visiting streams: the pool afterwards, the identities
      kept, and the mixed sample. */
  datatype Mixed = Mixed(pool: seq<AudioStream>, kept: seq<nat>, out: int16)

  /** The second loop of `sample` as intended: receive once from each
      stream in order, add the value into `acc`, keep the stream unless
      the receive reported a closed channel. */
  function Mix(pool: seq<AudioStream>, ids: seq<nat>, acc: int16): (r: Mixed)
    requires InPool(ids, |pool|)
    ensures |r.pool| == |pool|
    decreases |ids|
  {
    if |ids| == 0 then Mixed(pool, [], acc)
    else
      var got := Sample(pool[ids[0]]);
      assert InPool(ids[1..], |pool|);
      var r := Mix(pool[ids[0] := got.rest], ids[1..], AddSample(acc, got.v));
      Mixed(r.pool, if got.ok then [ids[0]] + r.kept else r.kept, r.out)
  }

  /** The streams that survive: those not closed and drained, in order. */
  function Live(pool: seq<AudioStream>, ids: seq<nat>): (r: seq<nat>)
    requires InPool(ids, |pool|)
    ensures forall i :: 0 <= i < |r| ==> r[i] in ids && !Drained(pool[r[i]])
    decreases |ids|
  {
    if |ids| == 0 then []
    else
      assert InPool(ids[1..], |pool|);
      if Drained(pool[ids[0]]) then Live(pool, ids[1..]) else [ids[0]] + Live(pool, ids[1..])
  }

  /** The value each stream contributes: its first queued sample, or 0. */
  function Head(a: AudioStream): int16
  {
    if |a.queue| > 0 then a.queue[0] else 0
  }

  /** Left-to-right saturating sum of the streams' contributions. */
  function SatSum(acc: int16, pool: seq<AudioStream>, ids: seq<nat>): int16
    requires InPool(ids, |pool|)
    decreases |ids|
  {
    if |ids| == 0 then acc
    else
      assert InPool(ids[1..], |pool|);
      SatSum(AddSample(acc, Head(pool[ids[0]])), pool, ids[1..])
  }

  /** The stream after one receive. */
  function Rest(a: AudioStream): AudioStream
  {
    Sample(a).rest
  }

  /** The mixing loop visits every stream exactly once: each visited stream
      loses its first queued sample (if any), all others are untouched, the
      output is the saturating sum of the first samples, and exactly the
      streams that are not closed and drained are kept, in order. */
  lemma {:induction false} MixSpec(pool: seq<AudioStream>, ids: seq<nat>, acc: int16)
    requires InPool(ids, |pool|) && Distinct(ids)
    ensures Mix(pool, ids, acc).kept == Live(pool, ids)
    ensures Mix(pool, ids, acc).out == SatSum(acc, pool, ids)
    ensures forall k :: 0 <= k < |pool| ==>
      Mix(pool, ids, acc).pool[k] == if k in ids then Rest(pool[k]) else pool[k]
    decreases |ids|
  {
    if |ids| > 0 {
      var id := ids[0];
      var got := Sample(pool[id]);
      var pool' := pool[id := got.rest];
      assert InPool(ids[1..], |pool|) && Distinct(ids[1..]);
      assert id !in ids[1..];
      MixSpec(pool', ids[1..], AddSample(acc, got.v));
      LiveUnchanged(pool, id, got.rest, ids[1..]);
      SatSumUnchanged(AddSample(acc, got.v), pool, id, got.rest, ids[1..]);
      assert forall k :: 0 <= k < |pool| ==> (k in ids <==> k == id || k in ids[1..]);
    }
  }

  /** Live and SatSum only look at the streams they visit. */
  lemma {:induction false} LiveUnchanged(pool: seq<AudioStream>, id: nat, a: AudioStream, ids: seq<nat>)
    requires InPool(ids, |pool|) && id < |pool| && id !in ids
    ensures Live(pool[id := a], ids) == Live(pool, ids)
    decreases |ids|
  {
    if |ids| > 0 {
      assert InPool(ids[1..], |pool|) && id !in ids[1..];
      LiveUnchanged(pool, id, a, ids[1..]);
    }
  }

  lemma {:induction false} SatSumUnchanged(acc: int16, pool: seq<AudioStream>, id: nat, a: AudioStream, ids: seq<nat>)
    requires InPool(ids, |pool|) && id < |pool| && id !in ids
    ensures SatSum(acc, pool[id := a], ids) == SatSum(acc, pool, ids)
    decreases |ids|
  {
    if |ids| > 0 {
      assert InPool(ids[1..], |pool|) && id !in ids[1..];
      SatSumUnchanged(AddSample(acc, Head(pool[ids[0]])), pool, id, a, ids[1..]);
    }
  }

  /** The result of one call of `sample`: the value and `ok`. */
  datatype Round = Round(st: Streamer, out: int16, ok: bool)

  /** AudioStreamer.sample with the removal done as intended. */
  function SampleRound(st: Streamer): (r: Round)
    requires Valid(st)
    ensures r.ok <==> MaxBuffered(st.pool, st.ins) >= JitterBufferSize
    ensures !r.ok ==> r.st == st && r.out == 0
  {
    if MaxBuffered(st.pool, st.ins) < JitterBufferSize then Round(st, 0, false)
    else
      var m := Mix(st.pool, st.ins, 0);
      Round(Streamer(m.pool, m.kept), m.out, true)
  }

  /** A round emits only when some visited stream has a jitter buffer's
      worth of samples queued. */
  lemma SampleRoundEmits(st: Streamer)
    requires Valid(st)
    ensures SampleRound(st).ok <==>
      exists i :: 0 <= i < |st.ins| && NumSamples(st.pool[st.ins[i]]) >= JitterBufferSize
  {
    var m := MaxBuffered(st.pool, st.ins);
    if m >= JitterBufferSize {
      var i :| 0 <= i < |st.ins| && NumSamples(st.pool[st.ins[i]]) == m;
    }
  }

  /** An emitting round keeps the streamer valid: the kept identities are a
      duplicate-free selection of the old ones and no queue grows. */
  lemma SampleRoundValid(st: Streamer)
    requires Valid(st) && SampleRound(st).ok
    ensures Valid(SampleRound(st).st)
    ensures SampleRound(st).st.ins == Live(st.pool, st.ins)
    ensures SampleRound(st).out == SatSum(0, st.pool, st.ins)
  {
    MixSpec(st.pool, st.ins, 0);
    LiveDistinct(st.pool, st.ins);
    var r := SampleRound(st).st;
    forall k | 0 <= k < |r.pool|
      ensures |r.pool[k].queue| <= ChannelCapacity
    {
      assert r.pool[k] == if k in st.ins then Rest(st.pool[k]) else st.pool[k];
    }
  }

  lemma {:induction false} LiveDistinct(pool: seq<AudioStream>, ids: seq<nat>)
    requires InPool(ids, |pool|) && Distinct(ids)
    ensures InPool(Live(pool, ids), |pool|) && Distinct(Live(pool, ids))
    decreases |ids|
  {
    if |ids| > 0 {
      assert InPool(ids[1..], |pool|) && Distinct(ids[1..]);
      LiveDistinct(pool, ids[1..]);
      assert ids[0] !in Live(pool, ids[1..]);
    }
  }

  /** AudioStreamer.Stream for `n` rounds: the samples it sends to `out`. */
  function StreamRounds(st: Streamer, n: nat): (r: (seq<int16>, Streamer))
    requires Valid(st)
    ensures |r.0| <= n
    decreases n
  {
    if n == 0 then ([], st)
    else
      var round := SampleRound(st);
      if round.ok then
        SampleRoundValid(st);
        var rest := StreamRounds(round.st, n - 1);
        ([round.out] + rest.0, rest.1)
      else StreamRounds(st, n - 1)
  }

  /** While every stream is below the jitter threshold, Stream sends nothing
      and changes nothing. */
  lemma {:induction false} StreamQuiet(st: Streamer, n: nat)
    requires Valid(st)
    requires forall i :: 0 <= i < |st.ins| ==> NumSamples(st.pool[st.ins[i]]) < JitterBufferSize
    ensures StreamRounds(st, n) == ([], st)
    decreases n
  {
    SampleRoundEmits(st);
    if n > 0 {
      StreamQuiet(st, n - 1);
    }
  }

  // ---------------------------------------------------------------------
  // The removal loop as written
  // ---------------------------------------------------------------------

  /** The second loop of `sample` as written: `range` fixes the iteration
      count and reads `arr[i]` from the shared backing array each time,
      while `s.ins = append(s.ins[:i], s.ins[i+1:]...)` shifts the tail of
      that array left in place and shortens `s.ins` (length `cur`). The
      slice `s.ins[i+1:]` panics (`None`) once `i + 1 > cur`. */
  function MixAsWritten(pool: seq<AudioStream>, arr: seq<nat>, cur: nat, i: nat, acc: int16): (r: Option<Mixed>)
    requires InPool(arr, |pool|) && cur <= |arr| && i <= |arr|
    decreases |arr| - i
  {
    if i == |arr| then Some(Mixed(pool, arr[..cur], acc))
    else
      var got := Sample(pool[arr[i]]);
      var pool' := pool[arr[i] := got.rest];
      var acc' := AddSample(acc, got.v);
      if got.ok then MixAsWritten(pool', arr, cur, i + 1, acc')
      else if i + 1 > cur then None
      else
        var arr' := arr[..i] + arr[i + 1..cur] + arr[cur - 1..];
        assert forall k :: 0 <= k < |arr'| ==> arr'[k] in arr;
        MixAsWritten(pool', arr', cur - 1, i + 1, acc')
  }

  /** As long as no stream is closed and drained the written loop removes
      nothing and agrees with the intended one. */
  lemma {:induction false} MixAsWrittenAgrees(pool: seq<AudioStream>, arr: seq<nat>, i: nat, acc: int16)
    requires InPool(arr, |pool|) && Distinct(arr) && i <= |arr|
    requires forall k :: i <= k < |arr| ==> !Drained(pool[arr[k]])
    ensures MixAsWritten(pool, arr, |arr|, i, acc) ==
      Some(Mixed(Mix(pool, arr[i..], acc).pool, arr, Mix(pool, arr[i..], acc).out))
    decreases |arr| - i
  {
    if i < |arr| {
      var got := Sample(pool[arr[i]]);
      var pool' := pool[arr[i] := got.rest];
      forall k | i + 1 <= k < |arr|
        ensures !Drained(pool'[arr[k]])
      {
        assert arr[k] != arr[i];
      }
      MixAsWrittenAgrees(pool', arr, i + 1, AddSample(acc, got.v));
      assert arr[i..][1..] == arr[i + 1..];
      assert InPool(arr[i..], |pool|);
    } else {
      assert arr[..|arr|] == arr;
    }
  }

  /** Three streams: the first and last closed and drained, the middle one
      with a jitter buffer's worth of sevens. */
  function PanicExample(): Streamer
  {
    Streamer([AudioStream([], true), AudioStream(seq(960, _ => 7), false), AudioStream([], true)], [0, 1, 2])
  }

  /** As written, the first removal shifts the third stream into the slot
      of the second, whose sample is never taken; the third is then
      removed again at index 2 of a one-element `s.ins`, and `s.ins[3:]`
      panics. */
  lemma PanicExampleAsWritten()
    ensures MixAsWritten(PanicExample().pool, PanicExample().ins, 3, 0, 0) == None
  {
    var p := PanicExample().pool;
    assert p[0 := p[0]] == p && p[2 := p[2]] == p;
    assert [0, 1, 2][..0] + [0, 1, 2][1..3] + [0, 1, 2][2..] == [1, 2, 2];
    assert [1, 2, 2][..1] + [1, 2, 2][2..2] + [1, 2, 2][1..] == [1, 2, 2];
  }

  /** The same streams in the intended mixer: the round emits the middle
      stream's 7 and keeps only that stream. */
  lemma PanicExampleIntended()
    ensures SampleRound(PanicExample()).ok
    ensures SampleRound(PanicExample()).out == 7
    ensures SampleRound(PanicExample()).st.ins == [1]
  {
    var st := PanicExample();
    var p := st.pool;
    assert Valid(st);
    assert NumSamples(p[st.ins[1]]) == 960;
    SampleRoundEmits(st);
    SampleRoundValid(st);
    assert Live(p, st.ins) == [1];
    assert SatSum(0, p, st.ins) == 7;
  }

  /** Without a second removal nothing panics, but the stream after a
      removed one is skipped and the last stream is received from twice:
      the first stream is drained, the second holds 1 and the third a
      jitter buffer's worth starting 5, 6, so the round is ready. As
      written the round mixes 5 + 6 and leaves the 1 queued. */
  lemma SkipExampleAsWritten()
    ensures SampleRound(SkipExample()).ok
    ensures MixAsWritten(SkipExample().pool, SkipExample().ins, 3, 0, 0) ==
      Some(Mixed([AudioStream([], true), AudioStream([1], false), AudioStream(SkipTail(), false)], [1, 2], 11))
  {
    var st := SkipExample();
    var p := st.pool;
    SkipExampleReady();
    var arr := [1, 2, 2];
    assert [0, 1, 2][..0] + [0, 1, 2][1..3] + [0, 1, 2][2..] == arr;
    assert p[0 := p[0]] == p;
    var p2 := p[2 := AudioStream([6] + SkipTail(), false)];
    var p3 := p2[2 := AudioStream(SkipTail(), false)];
    assert ([5, 6] + SkipTail())[1..] == [6] + SkipTail();
    assert ([6] + SkipTail())[1..] == SkipTail();
    assert Sample(p[2]) == Received(5, true, p2[2]);
    assert Sample(p2[2]) == Received(6, true, p3[2]);
    assert p3 == [AudioStream([], true), AudioStream([1], false), AudioStream(SkipTail(), false)];
    assert MixAsWritten(p, [0, 1, 2], 3, 0, 0) == MixAsWritten(p, arr, 2, 1, 0);
    assert MixAsWritten(p, arr, 2, 1, 0) == MixAsWritten(p2, arr, 2, 2, 5);
    assert MixAsWritten(p2, arr, 2, 2, 5) == MixAsWritten(p3, arr, 2, 3, 11);
    assert arr[..2] == [1, 2];
  }

  /** The same streams in the intended round: one sample from each live
      stream, 1 + 5, keeping the second and third. */
  lemma SkipExampleIntended()
    ensures SampleRound(SkipExample()).ok
    ensures SampleRound(SkipExample()).out == 6
    ensures SampleRound(SkipExample()).st.ins == [1, 2]
    ensures Mix(SkipExample().pool, SkipExample().ins, 0) ==
      Mixed([AudioStream([], true), AudioStream([], false), AudioStream([6] + SkipTail(), false)], [1, 2], 6)
  {
    var st := SkipExample();
    var p := st.pool;
    SkipExampleReady();
    assert p[0 := p[0]] == p;
    var p1 := p[1 := AudioStream([], false)];
    var p2 := p1[2 := AudioStream([6] + SkipTail(), false)];
    assert ([5, 6] + SkipTail())[1..] == [6] + SkipTail();
    assert Sample(p1[2]) == Received(5, true, p2[2]);
    assert [0, 1, 2][1..] == [1, 2] && [1, 2][1..] == [2] && [2][1..] == [];
    assert Mix(p2, [], 6) == Mixed(p2, [], 6);
    assert Mix(p1, [2], 1) == Mixed(p2, [2], 6);
    assert Mix(p, [1, 2], 0) == Mixed(p2, [1, 2], 6);
    SampleRoundValid(st);
    assert Live(p, st.ins) == [1, 2];
  }

  /** The skip example passes the jitter check: its third stream holds
      960 samples. */
  lemma SkipExampleReady()
    ensures Valid(SkipExample())
    ensures SampleRound(SkipExample()).ok
  {
    var st := SkipExample();
    assert NumSamples(st.pool[st.ins[2]]) == 960;
    SampleRoundEmits(st);
  }

  /** What the third stream of the skip example holds after 5 and 6. */
  function SkipTail(): seq<int16>
  {
    seq(958, _ => 0)
  }

  /** Three streams: the first closed and drained, the second holding 1,
      the third a jitter buffer's worth starting 5, 6. */
  function SkipExample(): Streamer
  {
    Streamer([AudioStream([], true), AudioStream([1], false), AudioStream([5, 6] + SkipTail(), false)], [0, 1, 2])
  }
}
