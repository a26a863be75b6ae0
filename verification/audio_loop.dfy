/** The looping stream of bot/audio_loop.go. The first pass reads the
    wrapped stream and records every sample it hands out; once that stream
    reports `io.EOF` the recording is replayed from memory until the loop
    count is reached (or forever, for a negative count). */
module AudioLoop {
  import opened Samples
  import opened Seqs
  import opened Errors
  import opened Streams

  /** `audioLoop`: read position in the recording, passes completed,
      requested passes, and the recording. */
  datatype Loop = Loop(n: int, count: int, max: int, buffer: seq<int16>)

  ghost predicate Valid(l: Loop)
  {
    0 <= l.n <= |l.buffer| && 0 <= l.count && (l.count == 0 ==> l.n == 0)
  }

  /** bot.NewAudioLoop. */
  function NewAudioLoop(max: int): (l: Loop)
    ensures Valid(l) && l.count == 0 && l.max == max && l.buffer == []
  {
    Loop(0, 0, max, [])
  }

  /** The result of one `Read(b)` call: a panic, or the new loop state with
      the samples handed out in `b[:n]` and the error. */
  datatype Outcome = Panic | Step(loop: Loop, samples: seq<int16>, err: Option<Error>)

  /** `readFile`: `r` is the wrapped stream's reply to the same buffer. A
      count the slice `b[:n]` rejects panics; the samples are recorded
      whatever the error; `io.EOF` (by `==`) completes the first pass and is
      swallowed. */
  function ReadFile(l: Loop, r: Reply): (o: Outcome)
    requires Valid(l) && l.count == 0
    ensures o.Step? ==> Valid(o.loop)
  {
    if r.n < 0 || r.n > |r.buf| then Panic
    else
      var got := r.buf[..r.n];
      var l' := l.(buffer := l.buffer + got);
      if r.err.None? then Step(l', got, None)
      else if r.err == Some(Eof) then Step(l'.(count := 1), got, None)
      else Step(l', got, r.err)
  }

  /** `readBuffer`: copy as much of the rest of the recording as fits in a
      buffer of length `bLen`; reaching the end completes a pass. */
  function ReadBuffer(l: Loop, bLen: nat): (o: Outcome)
    requires Valid(l) && l.count >= 1
    ensures o.Step? && Valid(o.loop) && o.loop.count >= l.count
  {
    var s := if |l.buffer| - l.n < bLen then |l.buffer| - l.n else bLen;
    var got := l.buffer[l.n..l.n + s];
    var n := l.n + s;
    if n == |l.buffer| then Step(l.(n := 0, count := l.count + 1), got, None)
    else Step(l.(n := n), got, None)
  }

  /** audioLoop.Read: the wrapped stream is consulted only during the first
      pass; `r` is its reply and is ignored afterwards. */
  function Read(l: Loop, bLen: nat, r: Reply): (o: Outcome)
    requires Valid(l)
    ensures o.Step? ==> Valid(o.loop)
  {
    if l.count == 0 then ReadFile(l, r)
    else if l.max < 0 || l.count < l.max then ReadBuffer(l, bLen)
    else Step(l, [], Some(Eof))
  }

  /** The first pass: a count the slice `b[:n]` rejects panics; otherwise
      `b[:n]` is handed out and appended to the recording whatever the
      error, and only `io.EOF` itself completes the pass, without being
      reported. */
  lemma ReadFileSpec(l: Loop, r: Reply)
    requires Valid(l) && l.count == 0
    ensures ReadFile(l, r).Panic? <==> !ValidCount(r)
    ensures ValidCount(r) ==>
      ReadFile(l, r) ==
      Step(Loop(0, if r.err == Some(Eof) then 1 else 0, l.max, l.buffer + r.buf[..r.n]),
           r.buf[..r.n], if r.err == Some(Eof) then None else r.err)
  {
  }

  /** A replay read hands out the next `min(bLen, rest)` recorded samples
      and never fails; reaching the end of the recording completes a pass
      and rewinds. */
  lemma ReadBufferSpec(l: Loop, bLen: nat)
    requires Valid(l) && l.count >= 1
    ensures var o := ReadBuffer(l, bLen);
      && o.err.None? && o.loop.buffer == l.buffer && o.loop.max == l.max
      && |o.samples| == Min(bLen, |l.buffer| - l.n)
      && o.samples == l.buffer[l.n..l.n + |o.samples|]
      && (l.n + |o.samples| == |l.buffer| ==> o.loop.n == 0 && o.loop.count == l.count + 1)
      && (l.n + |o.samples| < |l.buffer| ==> o.loop.n == l.n + |o.samples| && o.loop.count == l.count)
  {
  }

  /** After the first pass the wrapped stream is never consulted again, and
      once `max` passes are done (for `max >= 0`) every read is `io.EOF`. */
  lemma ReadSpec(l: Loop, bLen: nat, r1: Reply, r2: Reply)
    requires Valid(l)
    ensures l.count >= 1 ==> Read(l, bLen, r1) == Read(l, bLen, r2)
    ensures l.count >= 1 && 0 <= l.max <= l.count ==> Read(l, bLen, r1) == Step(l, [], Some(Eof))
    ensures l.count >= 1 && !(0 <= l.max <= l.count) ==> Read(l, bLen, r1) == ReadBuffer(l, bLen)
    ensures l.count == 0 ==> Read(l, bLen, r1) == ReadFile(l, r1)
  {
  }

  // ---------------------------------------------------------------------
  // A consumer that reads until the stream returns an error
  // ---------------------------------------------------------------------

  /** How a run of reads ended: `io.EOF`, another error, a panic, or the
      model stopped it (no more replies from the wrapped stream, or fuel
      exhausted). */
  datatype Ending = Ended | Errored(e: Error) | Crashed | Starved | OutOfFuel

  datatype Run = Run(out: seq<int16>, ending: Ending)

  function Prefix(s: seq<int16>, run: Run): Run
  {
    Run(s + run.out, run.ending)
  }

  /** Read with `bLen`-sample buffers until a non-nil error, for at most
      `fuel` reads, collecting every sample handed out. `replies` are the
      wrapped stream's replies, used one per read during the first pass. */
  function Drive(l: Loop, bLen: nat, replies: seq<Reply>, fuel: nat): Run
    requires Valid(l)
    decreases fuel
  {
    if fuel == 0 then Run([], OutOfFuel)
    else if l.count >= 1 then Replays(l, bLen, fuel)
    else if |replies| == 0 then Run([], Starved)
    else
      match ReadFile(l, replies[0])
      case Panic => Run([], Crashed)
      case Step(l', got, err) =>
        if err.Some? then Run(got, Errored(err.value))
        else Prefix(got, Drive(l', bLen, replies[1..], fuel - 1))
  }

  /** The same consumer once the first pass is over: only the recording is
      read, and the only error is `io.EOF`. */
  function Replays(l: Loop, bLen: nat, fuel: nat): Run
    requires Valid(l) && l.count >= 1
    decreases fuel
  {
    if fuel == 0 then Run([], OutOfFuel)
    else if 0 <= l.max <= l.count then Run([], Ended)
    else
      var o := ReadBuffer(l, bLen);
      Prefix(o.samples, Replays(o.loop, bLen, fuel - 1))
  }

  /** Drive is the consumer loop over audioLoop.Read: each read's samples
      are collected, `io.EOF` ends the run, another error stops it, and a
      nil error reads again. */
  lemma DriveFollowsRead(l: Loop, bLen: nat, replies: seq<Reply>, fuel: nat)
    requires Valid(l) && fuel >= 1 && (l.count == 0 ==> |replies| >= 1)
    ensures var r := if l.count == 0 then replies[0] else Reply(0, [], None);
      var rest := if l.count == 0 then replies[1..] else replies;
      Drive(l, bLen, replies, fuel) ==
        match Read(l, bLen, r)
        case Panic => Run([], Crashed)
        case Step(l', got, err) =>
          if err == Some(Eof) then Run(got, Ended)
          else if err.Some? then Run(got, Errored(err.value))
          else Prefix(got, Drive(l', bLen, rest, fuel - 1))
  {
    if l.count == 0 {
      ReadFileSpec(l, replies[0]);
    } else if !(0 <= l.max <= l.count) {
      var o := ReadBuffer(l, bLen);
      ReadBufferSpec(l, bLen);
      assert Drive(o.loop, bLen, replies, fuel - 1) == Replays(o.loop, bLen, fuel - 1);
    }
  }

  lemma PrefixPrefix(a: seq<int16>, b: seq<int16>, run: Run)
    ensures Prefix(a, Prefix(b, run)) == Prefix(a + b, run)
  {
    assert a + (b + run.out) == (a + b) + run.out;
  }

  /** One read during the first pass, unfolded. */
  lemma FileStep(l: Loop, bLen: nat, r: Reply, rest: seq<Reply>, fuel: nat)
    requires Valid(l) && l.count == 0 && fuel >= 1 && ValidCount(r)
    ensures r.err.None? ==>
      Drive(l, bLen, [r] + rest, fuel) ==
      Prefix(r.buf[..r.n], Drive(l.(buffer := l.buffer + r.buf[..r.n]), bLen, rest, fuel - 1))
    ensures r.err == Some(Eof) ==>
      Drive(l, bLen, [r] + rest, fuel) ==
      Prefix(r.buf[..r.n], Drive(l.(buffer := l.buffer + r.buf[..r.n], count := 1), bLen, rest, fuel - 1))
    ensures r.err.Some? && r.err != Some(Eof) ==>
      Drive(l, bLen, [r] + rest, fuel) == Run(r.buf[..r.n], Errored(r.err.value))
  {
    assert ([r] + rest)[0] == r && ([r] + rest)[1..] == rest;
  }

  lemma DeliveredOne(r: Reply)
    requires ValidCount(r)
    ensures Delivered([r]) == r.buf[..r.n]
  {
    assert [r][1..] == [];
  }

  lemma DeliveredCons(r: Reply, rs: seq<Reply>)
    requires ValidCount(r) && forall i :: 0 <= i < |rs| ==> ValidCount(rs[i])
    ensures Delivered([r] + rs) == r.buf[..r.n] + Delivered(rs)
  {
    assert ([r] + rs)[0] == r && ([r] + rs)[1..] == rs;
  }

  /** Splits `ok + [last] + rest` at its first reply. */
  lemma SplitReplies(ok: seq<Reply>, last: Reply, rest: seq<Reply>)
    requires |ok| > 0 && Clean(ok)
    ensures ok + [last] + rest == [ok[0]] + (ok[1..] + [last] + rest)
    ensures ok + [last] == [ok[0]] + (ok[1..] + [last])
    ensures Clean(ok[1..])
    ensures ValidCount(ok[0]) && ok[0].err.None?
  {
    assert ok == [ok[0]] + ok[1..];
  }

  /** During the first pass every sample the wrapped stream delivers is
      passed through and recorded; its `io.EOF` starts the replay with the
      whole recording. */
  lemma {:induction false} FirstPass(max: int, b: seq<int16>, bLen: nat, ok: seq<Reply>, last: Reply,
                                     rest: seq<Reply>, fuel: nat)
    requires Clean(ok)
    requires ValidCount(last) && last.err == Some(Eof)
    requires fuel > |ok|
    ensures Drive(Loop(0, 0, max, b), bLen, ok + [last] + rest, fuel) ==
      Prefix(Delivered(ok + [last]),
             Drive(Loop(0, 1, max, b + Delivered(ok + [last])), bLen, rest, fuel - |ok| - 1))
    decreases |ok|
  {
    DeliveredOne(last);
    if |ok| == 0 {
      assert ok + [last] + rest == [last] + rest;
      assert ok + [last] == [last];
      FileStep(Loop(0, 0, max, b), bLen, last, rest, fuel);
    } else {
      var r := ok[0];
      SplitReplies(ok, last, rest);
      var tail := ok[1..] + [last] + rest;
      var got := r.buf[..r.n];
      var d, d' := Delivered(ok + [last]), Delivered(ok[1..] + [last]);
      DeliveredCons(r, ok[1..] + [last]);
      assert got + d' == d;
      var x := Drive(Loop(0, 1, max, b + d), bLen, rest, fuel - |ok| - 1);
      FirstPass(max, b + got, bLen, ok[1..], last, rest, fuel - 1);
      assert b + got + d' == b + d;
      assert Drive(Loop(0, 0, max, b + got), bLen, tail, fuel - 1) == Prefix(d', x);
      FileStep(Loop(0, 0, max, b), bLen, r, tail, fuel);
      assert Drive(Loop(0, 0, max, b), bLen, [r] + tail, fuel) == Prefix(got, Prefix(d', x));
      PrefixPrefix(got, d', x);
    }
  }

  /** An error other than `io.EOF` during the first pass is returned with
      the samples of its reply: everything delivered so far reaches the
      consumer, then the error. */
  lemma {:induction false} FirstPassError(l: Loop, bLen: nat, ok: seq<Reply>, last: Reply,
                                          rest: seq<Reply>, fuel: nat)
    requires Valid(l) && l.count == 0
    requires Clean(ok)
    requires ValidCount(last) && last.err.Some? && last.err != Some(Eof)
    requires fuel > |ok|
    ensures Drive(l, bLen, ok + [last] + rest, fuel) == Run(Delivered(ok + [last]), Errored(last.err.value))
    decreases |ok|
  {
    DeliveredOne(last);
    if |ok| == 0 {
      assert ok + [last] + rest == [last] + rest;
      assert ok + [last] == [last];
      FileStep(l, bLen, last, rest, fuel);
    } else {
      var r := ok[0];
      SplitReplies(ok, last, rest);
      FileStep(l, bLen, r, ok[1..] + [last] + rest, fuel);
      FirstPassError(l.(buffer := l.buffer + r.buf[..r.n]), bLen, ok[1..], last, rest, fuel - 1);
      DeliveredCons(r, ok[1..] + [last]);
    }
  }

  /** Reads one replay pass can take at most: one sample per read at
      least, and a single read for an empty recording. */
  function PassReads(c: seq<int16>): nat
  {
    if |c| == 0 then 1 else |c|
  }

  /** Reads needed from position `j` of pass `k` until `io.EOF`, at most. */
  function Reads(c: seq<int16>, j: int, k: int, max: int): (r: int)
    ensures j <= PassReads(c) ==> r >= 1
    decreases max - k
  {
    if k >= max then 1 else PassReads(c) - j + Reads(c, 0, k + 1, max)
  }

  lemma {:induction false} ReadsClosedForm(c: seq<int16>, k: int, max: int)
    requires k <= max
    ensures Reads(c, 0, k, max) == (max - k) * PassReads(c) + 1
    decreases max - k
  {
    if k < max {
      ReadsClosedForm(c, k + 1, max);
      assert (max - k) * PassReads(c) == PassReads(c) + (max - (k + 1)) * PassReads(c);
    }
  }

  /** Replaying from position `j` of pass `k` of `max` hands out the rest of
      this pass and then the remaining passes whole, and ends with `io.EOF`. */
  lemma {:induction false} Replay(c: seq<int16>, j: nat, k: nat, max: nat, bLen: nat, fuel: nat)
    requires 1 <= k < max && 1 <= bLen
    requires j < |c| || j == 0
    requires fuel >= Reads(c, j, k, max)
    ensures Replays(Loop(j, k, max, c), bLen, fuel) == Run(c[j..] + Repeat(c, max - k - 1), Ended)
    decreases fuel, 1
  {
    var s := Min(bLen, |c| - j);
    ReplayRead(c, j, k, max, bLen, fuel);
    if j + s < |c| {
      ReplaySamePass(c, j, s, k, max, bLen, fuel);
    } else if k + 1 < max {
      ReplayNextPass(c, j, s, k, max, bLen, fuel);
    } else {
      LastPass(c, j, s, k, max, bLen, fuel - 1);
    }
  }

  lemma {:induction false} ReplaySamePass(c: seq<int16>, j: nat, s: nat, k: nat, max: nat, bLen: nat, fuel: nat)
    requires 1 <= k < max && 1 <= bLen && s == Min(bLen, |c| - j) && j + s < |c|
    requires fuel >= Reads(c, j, k, max)
    ensures fuel >= 1
    ensures Prefix(c[j..j + s], Replays(Loop(j + s, k, max, c), bLen, fuel - 1)) ==
      Run(c[j..] + Repeat(c, max - k - 1), Ended)
    decreases fuel, 0
  {
    assert Reads(c, 0, k + 1, max) >= 1;
    Replay(c, j + s, k, max, bLen, fuel - 1);
    SamePass(c, j, s, k, max);
  }

  lemma {:induction false} ReplayNextPass(c: seq<int16>, j: nat, s: nat, k: nat, max: nat, bLen: nat, fuel: nat)
    requires 1 <= k && k + 1 < max && 1 <= bLen && s == Min(bLen, |c| - j) && j + s == |c|
    requires j < |c| || j == 0
    requires fuel >= Reads(c, j, k, max)
    ensures fuel >= 1
    ensures Prefix(c[j..j + s], Replays(Loop(0, k + 1, max, c), bLen, fuel - 1)) ==
      Run(c[j..] + Repeat(c, max - k - 1), Ended)
    decreases fuel, 0
  {
    assert Reads(c, 0, k + 1, max) >= 1 && j + 1 <= PassReads(c);
    Replay(c, 0, k + 1, max, bLen, fuel - 1);
    NextPass(c, j, s, k, max);
  }

  lemma NextPass(c: seq<int16>, j: int, s: int, k: int, max: int)
    requires 0 <= j && 0 <= s && j + s == |c| && k + 1 < max
    ensures Prefix(c[j..j + s], Run(c[0..] + Repeat(c, max - (k + 1) - 1), Ended))
      == Run(c[j..] + Repeat(c, max - k - 1), Ended)
  {
    assert c[j..j + s] == c[j..];
    assert c[0..] == c;
    assert Repeat(c, max - k - 1) == c + Repeat(c, max - (k + 1) - 1);
  }

  lemma SamePass(c: seq<int16>, j: int, s: int, k: int, max: int)
    requires 0 <= j && 0 <= s && j + s < |c| && k < max
    ensures Prefix(c[j..j + s], Run(c[j + s..] + Repeat(c, max - k - 1), Ended))
      == Run(c[j..] + Repeat(c, max - k - 1), Ended)
  {
    assert c[j..] == c[j..j + s] + c[j + s..];
  }

  /** The end of the last pass: nothing more, then `io.EOF`. */
  lemma LastPass(c: seq<int16>, j: int, s: int, k: int, max: int, bLen: nat, fuel: nat)
    requires 0 <= j && 0 <= s && j + s == |c| && 0 <= k && k + 1 == max && fuel >= 1
    ensures Prefix(c[j..j + s], Replays(Loop(0, k + 1, max, c), bLen, fuel))
      == Run(c[j..] + Repeat(c, max - k - 1), Ended)
  {
    assert c[j..j + s] == c[j..] + [];
  }

  /** One replay read: the next `min(bLen, rest)` recorded samples, then
      either the same pass further on or the next pass from the start. */
  lemma ReplayRead(c: seq<int16>, j: nat, k: nat, max: int, bLen: nat, fuel: nat)
    requires 1 <= k < max && j <= |c| && fuel >= 1
    ensures var s := Min(bLen, |c| - j);
      Replays(Loop(j, k, max, c), bLen, fuel) ==
      Prefix(c[j..j + s], Replays(if j + s == |c| then Loop(0, k + 1, max, c) else Loop(j + s, k, max, c),
                                  bLen, fuel - 1))
  {
    var l := Loop(j, k, max, c);
    var s := Min(bLen, |c| - j);
    ReadBufferSpec(l, bLen);
    var o := ReadBuffer(l, bLen);
    assert o.samples == c[j..j + s];
    assert o.loop == if j + s == |c| then Loop(0, k + 1, max, c) else Loop(j + s, k, max, c);
  }

  /** The whole run of a loop with count `max`: the wrapped stream's samples
      up to its `io.EOF`, played `max` times (once for a count of 0 or 1),
      then `io.EOF`. */
  lemma LoopPlaysCount(max: nat, bLen: nat, ok: seq<Reply>, last: Reply, rest: seq<Reply>, fuel: nat)
    requires 1 <= bLen && Clean(ok)
    requires ValidCount(last) && last.err == Some(Eof)
    requires fuel >= |ok| + 2 + (Max(max, 1) - 1) * PassReads(Delivered(ok + [last]))
    ensures Drive(NewAudioLoop(max), bLen, ok + [last] + rest, fuel) ==
      Run(Repeat(Delivered(ok + [last]), Max(max, 1)), Ended)
  {
    var c := Delivered(ok + [last]);
    var f := fuel - |ok| - 1;
    FirstPassFromNew(max, bLen, ok, last, rest, fuel);
    ReplayRest(c, max, bLen, rest, f);
    assert Repeat(c, Max(max, 1)) == c + Repeat(c, Max(max, 1) - 1);
  }

  lemma FirstPassFromNew(max: nat, bLen: nat, ok: seq<Reply>, last: Reply, rest: seq<Reply>, fuel: nat)
    requires Clean(ok)
    requires ValidCount(last) && last.err == Some(Eof)
    requires fuel > |ok|
    ensures Drive(NewAudioLoop(max), bLen, ok + [last] + rest, fuel) ==
      Prefix(Delivered(ok + [last]), Drive(Loop(0, 1, max, Delivered(ok + [last])), bLen, rest, fuel - |ok| - 1))
  {
    FirstPass(max, [], bLen, ok, last, rest, fuel);
    assert [] + Delivered(ok + [last]) == Delivered(ok + [last]);
  }

  /** After the first pass, the remaining `max - 1` passes (none for a
      count of 0 or 1). */
  lemma ReplayRest(c: seq<int16>, max: nat, bLen: nat, rest: seq<Reply>, f: nat)
    requires 1 <= bLen
    requires f >= (Max(max, 1) - 1) * PassReads(c) + 1
    ensures Drive(Loop(0, 1, max, c), bLen, rest, f) == Run(Repeat(c, Max(max, 1) - 1), Ended)
  {
    assert Drive(Loop(0, 1, max, c), bLen, rest, f) == Replays(Loop(0, 1, max, c), bLen, f);
    if max > 1 {
      ReadsClosedForm(c, 1, max);
      Replay(c, 0, 1, max, bLen, f);
      assert c[0..] == c;
      assert Repeat(c, max - 1) == c + Repeat(c, max - 2);
    }
  }

  /** A negative count never reports `io.EOF`: the loop can only end by an
      error or panic of the wrapped stream during its first pass. */
  lemma {:induction false} ForeverNeverEnds(l: Loop, bLen: nat, replies: seq<Reply>, fuel: nat)
    requires Valid(l) && l.max < 0
    ensures Drive(l, bLen, replies, fuel).ending != Ended
    ensures l.count >= 1 ==> Drive(l, bLen, replies, fuel).ending == OutOfFuel
    decreases fuel
  {
    if fuel > 0 {
      if l.count >= 1 {
        ReplaysForever(l, bLen, fuel);
      } else if |replies| > 0 {
        var o := ReadFile(l, replies[0]);
        if o.Step? && o.err.None? {
          ForeverNeverEnds(o.loop, bLen, replies[1..], fuel - 1);
        }
      }
    }
  }

  lemma {:induction false} ReplaysForever(l: Loop, bLen: nat, fuel: nat)
    requires Valid(l) && l.count >= 1 && l.max < 0
    ensures Replays(l, bLen, fuel).ending == OutOfFuel
    decreases fuel
  {
    if fuel > 0 {
      ReadBufferSpec(l, bLen);
      ReplaysForever(ReadBuffer(l, bLen).loop, bLen, fuel - 1);
    }
  }
}
