/** Stream helpers of bot/stream.go and bot/audio_stream.go: draining an
    `AudioStream` into one slice, and opening a sound file by extension.
    A stream is modelled as the sequence of replies its successive `Read`
    calls give; the file system, `filepath.Ext` and the opus library are
    parameters. */
module Streams {
  import opened Samples
  import opened Seqs
  import opened Errors
  import opened Decoders

  /** Length of the fresh buffer each `Read` call is offered. */
  const Capacity: int := 2048

  /** One `a.Read(b)` reply: the returned count, the contents of `b`
      afterwards (always `Capacity` long), and the error. */
  datatype Reply = Reply(n: int, buf: seq<int16>, err: Option<Error>)

  ghost predicate WellSized(replies: seq<Reply>)
  {
    forall i :: 0 <= i < |replies| ==> |replies[i].buf| == Capacity
  }

  /** How `ReadAll` ends: it panicked on a bad count, returned the samples
      with a nil error at `io.EOF`, returned an error (and no samples), or is
      still waiting because the replies ran out. */
  datatype Drained = Panicked | Done(samples: seq<int16>) | Failed(err: Error) | Waiting(samples: seq<int16>)

  /** A count `b[:n]` accepts: negative counts panic explicitly, counts past
      the buffer's end panic on the slice expression. */
  predicate ValidCount(r: Reply)
  {
    0 <= r.n <= |r.buf|
  }

  /** bot.ReadAll. `io.EOF` is recognised by `==`, so a wrapped EOF counts
      as an ordinary error. */
  function ReadAll(replies: seq<Reply>): (d: Drained)
    requires WellSized(replies)
    ensures d.Waiting? ==> Clean(replies) && d.samples == Delivered(replies)
    decreases |replies|
  {
    if |replies| == 0 then Waiting([])
    else
      var r := replies[0];
      if !ValidCount(r) then Panicked
      else if r.err == Some(Eof) then Done(r.buf[..r.n])
      else if r.err.Some? then Failed(r.err.value)
      else
        assert WellSized(replies[1..]);
        match ReadAll(replies[1..])
        case Done(s) => Done(r.buf[..r.n] + s)
        case Waiting(s) =>
          assert forall i :: 1 <= i < |replies| ==> replies[i] == replies[1..][i - 1];
          assert Clean(replies);
          Waiting(r.buf[..r.n] + s)
        case other => other
  }

  /** The samples a run of replies delivered, in order. */
  function Delivered(replies: seq<Reply>): seq<int16>
    requires forall i :: 0 <= i < |replies| ==> ValidCount(replies[i])
  {
    if |replies| == 0 then []
    else
      assert ValidCount(replies[0]);
      replies[0].buf[..replies[0].n] + Delivered(replies[1..])
  }

  /** Error-free replies with valid counts. */
  ghost predicate Clean(replies: seq<Reply>)
  {
    forall i :: 0 <= i < |replies| ==> ValidCount(replies[i]) && replies[i].err.None?
  }

  /** After clean replies, the reply that decides the outcome: the samples
      of everything up to and including an `io.EOF` reply are returned with
      a nil error, whatever follows. */
  lemma {:induction false} ReadAllToEof(ok: seq<Reply>, last: Reply, rest: seq<Reply>)
    requires WellSized(ok + [last] + rest) && Clean(ok)
    requires ValidCount(last) && last.err == Some(Eof)
    ensures ReadAll(ok + [last] + rest) == Done(Delivered(ok) + last.buf[..last.n])
    decreases |ok|
  {
    var all := ok + [last] + rest;
    if |ok| == 0 {
      assert all[0] == last;
    } else {
      assert all[0] == ok[0];
      assert all[1..] == ok[1..] + [last] + rest;
      ReadAllToEof(ok[1..], last, rest);
    }
  }

  /** Any other error after clean replies is returned alone: the samples
      read so far are discarded. */
  lemma {:induction false} ReadAllToError(ok: seq<Reply>, last: Reply, rest: seq<Reply>)
    requires WellSized(ok + [last] + rest) && Clean(ok)
    requires ValidCount(last) && last.err.Some? && last.err != Some(Eof)
    ensures ReadAll(ok + [last] + rest) == Failed(last.err.value)
    decreases |ok|
  {
    var all := ok + [last] + rest;
    if |ok| == 0 {
      assert all[0] == last;
    } else {
      assert all[0] == ok[0];
      assert all[1..] == ok[1..] + [last] + rest;
      ReadAllToError(ok[1..], last, rest);
    }
  }

  /** A negative (or oversized) count after clean replies panics,
      whatever its error. */
  lemma {:induction false} ReadAllBadCount(ok: seq<Reply>, last: Reply, rest: seq<Reply>)
    requires WellSized(ok + [last] + rest) && Clean(ok)
    requires !ValidCount(last)
    ensures ReadAll(ok + [last] + rest) == Panicked
    decreases |ok|
  {
    var all := ok + [last] + rest;
    if |ok| == 0 {
      assert all[0] == last;
    } else {
      assert all[0] == ok[0];
      assert all[1..] == ok[1..] + [last] + rest;
      ReadAllBadCount(ok[1..], last, rest);
    }
  }

  /** EOF wrapped by another error is not `io.EOF` to `==`: ReadAll fails. */
  lemma ReadAllWrappedEof(buf: seq<int16>, n: int)
    requires |buf| == Capacity && 0 <= n <= Capacity
    ensures ReadAll([Reply(n, buf, Some(Wrapped("read", Eof)))]) == Failed(Wrapped("read", Eof))
  {
  }

  // ---------------------------------------------------------------------
  // Opening sound files
  // ---------------------------------------------------------------------

  /** An opened stream: the raw reader over the file, or an opus stream. */
  datatype Stream<F, S> = RawStream(file: F) | OpusStream(stream: S)

  /** bot.OpenSoundFile. `ext` is `filepath.Ext(path)`, `open` is
      `os.Open` and `opusNew` is `opus.NewStream`. */
  function OpenSoundFile<F, S>(path: string, ext: string -> string, open: string -> Result<F>,
                               opusNew: F -> Result<S>): (r: Result<Stream<F, S>>)
    ensures ext(path) !in Registry ==> r == Err(UnsupportedFormat(ext(path)))
    ensures ext(path) in Registry && open(path).Err? ==> r == Err(open(path).error)
    ensures ext(path) in Registry && open(path).Ok? ==>
      match Registry[ext(path)]
      case RawDecoder => r == Ok(RawStream(open(path).value))
      case OpusDecoder =>
        match opusNew(open(path).value)
        case Ok(s) => r == Ok(OpusStream(s))
        case Err(e) => r == Err(e)
  {
    var e := ext(path);
    if e !in Registry then Err(UnsupportedFormat(e))
    else
      match open(path)
      case Err(err) => Err(err)
      case Ok(f) =>
        match Registry[e]
        case RawDecoder => Ok(RawStream(f))
        case OpusDecoder =>
          match opusNew(f)
          case Ok(s) => Ok(OpusStream(s))
          case Err(err) => Err(err)
  }

  /** The extension is checked before anything is opened: for an
      unregistered extension the file system is never consulted. */
  lemma UnsupportedBeforeOpen<F, S>(path: string, ext: string -> string,
                                     open1: string -> Result<F>, open2: string -> Result<F>,
                                     opusNew: F -> Result<S>)
    requires ext(path) !in Registry
    ensures OpenSoundFile(path, ext, open1, opusNew) == OpenSoundFile(path, ext, open2, opusNew)
  {
  }

  /** The decoder depends only on the extension: two paths with the same
      extension that open to the same file give the same stream. */
  lemma DecoderByExtension<F, S>(p1: string, p2: string, ext: string -> string,
                                 open: string -> Result<F>, opusNew: F -> Result<S>)
    requires ext(p1) == ext(p2) && open(p1) == open(p2)
    ensures OpenSoundFile(p1, ext, open, opusNew) == OpenSoundFile(p2, ext, open, opusNew)
  {
  }
}
