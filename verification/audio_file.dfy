/** Raw PCM files as a sample channel (audio/file.go). An `io.Reader` is
    modelled as the sequence of replies its successive `Read` calls return;
    an `io.Writer` as the reply to its k-th `Write` call. The output channel
    of `Read` is the sequence of samples sent on it. */
module AudioFile {
  import opened Samples
  import opened Seqs
  import opened Errors
  import opened Pcm

  /** Size of the byte buffer `Read` offers the reader. */
  const ReadBufferSize: int := 2048

  /** Size of the byte buffer `Write` fills before each write: 160 samples. */
  const WriteBlockSize: int := 320
  const BlockSamples: int := 160

  const ReadErrorPrefix: string := "error reading audio"
  const WriteErrorPrefix: string := "unable to write audio"

  /** One `f.Read(raw)` reply: the bytes placed in `raw[:n]`, and the error. */
  datatype Chunk = Chunk(data: seq<byte>, err: Option<Error>)

  /** `Closed`: Read returned (and closed its output) with this error result.
      `Open`: the reader's replies ran out while Read was still looping, so
      the output is not closed yet. */
  datatype ReadOutcome = Closed(samples: seq<int16>, err: Option<Error>) | Open(samples: seq<int16>)

  function Prepend(xs: seq<int16>, r: ReadOutcome): (r': ReadOutcome)
    ensures r'.samples == xs + r.samples && r'.Closed? == r.Closed?
  {
    match r
    case Closed(s, e) => Closed(xs + s, e)
    case Open(s) => Open(xs + s)
  }

  /** The bytes of a reply that are decoded: an odd trailing byte is cut. */
  function EvenPart(data: seq<byte>): (r: seq<byte>)
    ensures |r| % 2 == 0 && |r| / 2 == |data| / 2 && r <= data
  {
    if |data| % 2 != 0 then data[..|data| - 1] else data
  }

  /** audio.Read: decodes every reply's complete byte pairs until the first
      error. `io.EOF` (seen through wrappers, as `errors.Is` does) ends with a
      nil error; any other error is wrapped. Bytes that arrive together with
      an error are discarded. */
  function Read(replies: seq<Chunk>): (r: ReadOutcome)
    ensures r.Closed? <==> exists i :: 0 <= i < |replies| && replies[i].err.Some?
    ensures r.Closed? && r.err.Some? ==> r.err.value.Wrapped? && r.err.value.prefix == ReadErrorPrefix
    decreases |replies|
  {
    if |replies| == 0 then Open([])
    else
      var c := replies[0];
      if c.err.Some? then
        if IsEof(c.err.value) then Closed([], None)
        else Closed([], Some(Wrapped(ReadErrorPrefix, c.err.value)))
      else
        var rest := Read(replies[1..]);
        assert forall i :: 1 <= i < |replies| ==> replies[i] == replies[1..][i - 1];
        Prepend(DecodeAll(EvenPart(c.data)), rest)
  }

  /** A reply without error. */
  ghost predicate AllNil(cs: seq<Chunk>)
  {
    forall i :: 0 <= i < |cs| ==> cs[i].err.None?
  }

  /** The samples of error-free replies: each reply decoded on its own. */
  function DecodeChunks(cs: seq<Chunk>): seq<int16>
  {
    if |cs| == 0 then [] else DecodeAll(EvenPart(cs[0].data)) + DecodeChunks(cs[1..])
  }

  /** Whatever follows a run of error-free replies, their samples come first,
      in order, each reply decoded independently; the first error decides the
      result and the bytes delivered with it are dropped. */
  lemma {:induction false} ReadPrefix(ok: seq<Chunk>, data: seq<byte>, e: Error, rest: seq<Chunk>)
    requires AllNil(ok)
    ensures Read(ok + [Chunk(data, Some(e))] + rest) ==
      Closed(DecodeChunks(ok), if IsEof(e) then None else Some(Wrapped(ReadErrorPrefix, e)))
    decreases |ok|
  {
    var all := ok + [Chunk(data, Some(e))] + rest;
    if |ok| == 0 {
      assert all[0] == Chunk(data, Some(e));
    } else {
      assert all[0] == ok[0];
      assert all[1..] == ok[1..] + [Chunk(data, Some(e))] + rest;
      ReadPrefix(ok[1..], data, e, rest);
    }
  }

  /** Error-free replies followed by `io.EOF` close the output with a nil
      error after all their samples. */
  lemma ReadToEof(ok: seq<Chunk>, data: seq<byte>)
    requires AllNil(ok)
    ensures Read(ok + [Chunk(data, Some(Eof))]) == Closed(DecodeChunks(ok), None)
  {
    assert ok + [Chunk(data, Some(Eof))] + [] == ok + [Chunk(data, Some(Eof))];
    ReadPrefix(ok, data, Eof, []);
  }

  /** An odd-length reply loses exactly its last byte. */
  lemma ReadOddReply(data: seq<byte>, b: byte, rest: seq<Chunk>)
    requires |data| % 2 == 0
    ensures Read([Chunk(data + [b], None)] + rest) == Read([Chunk(data, None)] + rest)
  {
    assert ([Chunk(data + [b], None)] + rest)[1..] == rest;
    assert ([Chunk(data, None)] + rest)[1..] == rest;
    assert EvenPart(data + [b]) == data;
  }

  // ---------------------------------------------------------------------
  // Write
  // ---------------------------------------------------------------------

  /** The 320-byte blocks of `vs`: every complete run of 160 samples encoded;
      a trailing partial run has no block. */
  function Blocks(vs: seq<int16>): (bs: seq<seq<byte>>)
    ensures |bs| == |vs| / BlockSamples
    decreases |vs|
  {
    if |vs| < BlockSamples then []
    else [EncodeAll(vs[..BlockSamples])] + Blocks(vs[BlockSamples..])
  }

  /** Block k is the encoding of samples 160k .. 160k+159, so it is always
      320 bytes long. */
  lemma {:induction false} BlocksAt(vs: seq<int16>, k: nat)
    requires k < |vs| / BlockSamples
    ensures Blocks(vs)[k] == EncodeAll(vs[BlockSamples * k..BlockSamples * k + BlockSamples])
    ensures |Blocks(vs)[k]| == WriteBlockSize
    decreases k
  {
    if k > 0 {
      var rest := vs[BlockSamples..];
      BlocksAt(rest, k - 1);
      assert rest[BlockSamples * (k - 1)..BlockSamples * (k - 1) + BlockSamples]
          == vs[BlockSamples * k..BlockSamples * k + BlockSamples];
    }
  }

  /** Index of the first write in [k, count) that the writer rejects, or
      `count` if none does. */
  function FirstFailure(writer: nat -> Option<Error>, k: nat, count: nat): (f: nat)
    requires k <= count
    ensures k <= f <= count
    ensures forall j :: k <= j < f ==> writer(j).None?
    ensures f < count ==> writer(f).Some?
    decreases count - k
  {
    if k == count then count
    else if writer(k).Some? then k
    else FirstFailure(writer, k + 1, count)
  }

  /** audio.Write: fills a 320-byte buffer with the little-endian encoding of
      the incoming samples and writes it each time it is full. The first
      failing write stops it with a wrapped error; a trailing partial block
      is never written. `blocks` are the buffers handed to the writer. */
  method Write(input: seq<int16>, writer: nat -> Option<Error>) returns (blocks: seq<seq<byte>>, err: Option<Error>)
    ensures var m := |input| / BlockSamples;
            var f := FirstFailure(writer, 0, m);
            if f < m then
              blocks == Blocks(input)[..f + 1] && err == Some(Wrapped(WriteErrorPrefix, writer(f).value))
            else
              blocks == Blocks(input) && err == None
  {
    var buf: seq<byte> := seq(WriteBlockSize, _ => 0);
    var n := 0;
    blocks := [];
    var i := 0;
    while i < |input|
      invariant Filling(input, i, n, buf, blocks) && n < WriteBlockSize
      invariant forall j :: 0 <= j < |blocks| ==> writer(j).None?
    {
      var enc := EncodeLE(input[i]);
      PutSample(input, i, n, buf, blocks);
      buf := buf[n := enc[0]][n + 1 := enc[1]];
      n := n + 2;
      i := i + 1;
      if n == WriteBlockSize {
        Flush(input, i, buf, blocks);
        var e := writer(|blocks|);
        blocks := blocks + [buf];
        if e.Some? {
          StopAtFailure(input, |blocks|, writer);
          BlocksPrefix(input, |blocks|);
          err := Some(Wrapped(WriteErrorPrefix, e.value));
          return;
        }
        n := 0;
      }
    }
    AllBlocksWritten(input, blocks, writer, n / 2);
    err := None;
  }

  /** Write's loop state after `i` samples: the blocks of the first whole
      160-sample runs are written and the `n` filled bytes of `buf` encode the
      samples read since. */
  ghost predicate Filling(input: seq<int16>, i: int, n: int, buf: seq<byte>, blocks: seq<seq<byte>>)
  {
    var start := BlockSamples * |blocks|;
    start <= i <= |input| && |buf| == WriteBlockSize &&
    n == 2 * (i - start) && 0 <= n <= WriteBlockSize &&
    buf[..n] == EncodeAll(input[start..i]) &&
    blocks == Blocks(input[..start])
  }

  lemma PutSample(input: seq<int16>, i: int, n: int, buf: seq<byte>, blocks: seq<seq<byte>>)
    requires Filling(input, i, n, buf, blocks) && n < WriteBlockSize && i < |input|
    ensures var enc := EncodeLE(input[i]);
            Filling(input, i + 1, n + 2, buf[n := enc[0]][n + 1 := enc[1]], blocks)
  {
    var start := BlockSamples * |blocks|;
    BufferPut(buf, n, input[start..i], input[i]);
    assert input[start..i + 1] == input[start..i] + [input[i]];
  }

  lemma Flush(input: seq<int16>, i: int, buf: seq<byte>, blocks: seq<seq<byte>>)
    requires Filling(input, i, WriteBlockSize, buf, blocks)
    ensures Filling(input, i, 0, buf, blocks + [buf])
  {
    var start := BlockSamples * |blocks|;
    CompleteBlock(input, blocks, buf, start);
    assert input[i..i] == [];
  }

  /** A full buffer holding the next 160 samples is the next block. */
  lemma CompleteBlock(input: seq<int16>, blocks: seq<seq<byte>>, buf: seq<byte>, start: nat)
    requires start == BlockSamples * |blocks| && start + BlockSamples <= |input|
    requires blocks == Blocks(input[..start])
    requires |buf| == WriteBlockSize && buf[..WriteBlockSize] == EncodeAll(input[start..start + BlockSamples])
    ensures blocks + [buf] == Blocks(input[..start + BlockSamples])
  {
    assert buf[..WriteBlockSize] == buf;
    BlocksSnoc(input, |blocks|);
  }

  /** A rejected write after k good ones is the first failure. */
  lemma StopAtFailure(input: seq<int16>, k: nat, writer: nat -> Option<Error>)
    requires 0 < k && BlockSamples * k <= |input|
    requires forall j :: 0 <= j < k - 1 ==> writer(j).None?
    requires writer(k - 1).Some?
    ensures FirstFailure(writer, 0, |input| / BlockSamples) == k - 1 < |input| / BlockSamples
  {
    DivAtLeast(|input|, k);
    FirstFailureAt(writer, |input| / BlockSamples, k - 1);
  }

  /** Reaching the end of the input with fewer than 160 samples pending
      means every block was written. */
  lemma AllBlocksWritten(input: seq<int16>, blocks: seq<seq<byte>>, writer: nat -> Option<Error>, pending: int)
    requires 0 <= pending < BlockSamples && |input| == BlockSamples * |blocks| + pending
    requires blocks == Blocks(input[..BlockSamples * |blocks|])
    requires forall j :: 0 <= j < |blocks| ==> writer(j).None?
    ensures var m := |input| / BlockSamples;
            FirstFailure(writer, 0, m) == m && blocks == Blocks(input)
  {
    DivUnique(|input|, BlockSamples, |blocks|, pending);
    BlocksPrefix(input, |blocks|);
    FirstFailureNone(writer, |input| / BlockSamples);
  }

  /** Storing the encoding of `v` at the fill position extends the encoded
      prefix of the buffer by one sample. */
  lemma BufferPut(buf: seq<byte>, n: int, prefix: seq<int16>, v: int16)
    requires |buf| == WriteBlockSize && 0 <= n <= WriteBlockSize - 2
    requires buf[..n] == EncodeAll(prefix)
    ensures var enc := EncodeLE(v);
            var b := buf[n := enc[0]][n + 1 := enc[1]];
            |b| == WriteBlockSize && b[..n + 2] == EncodeAll(prefix + [v])
  {
    var enc := EncodeLE(v);
    var b := buf[n := enc[0]][n + 1 := enc[1]];
    assert b[..n + 2] == buf[..n] + enc;
    EncodeAllSnoc(prefix, v);
  }

  /** The blocks of the first k*160 samples extend by one block per 160
      further samples. */
  lemma BlocksSnoc(vs: seq<int16>, k: nat)
    requires BlockSamples * (k + 1) <= |vs|
    ensures Blocks(vs[..BlockSamples * (k + 1)]) ==
      Blocks(vs[..BlockSamples * k]) + [EncodeAll(vs[BlockSamples * k..BlockSamples * (k + 1)])]
  {
    BlocksAppend(vs[..BlockSamples * k], vs[BlockSamples * k..BlockSamples * (k + 1)], k);
    assert vs[..BlockSamples * k] + vs[BlockSamples * k..BlockSamples * (k + 1)] == vs[..BlockSamples * (k + 1)];
    var last := vs[BlockSamples * k..BlockSamples * (k + 1)];
    assert last[..BlockSamples] == last && last[BlockSamples..] == [];
  }

  lemma {:induction false} BlocksAppend(a: seq<int16>, b: seq<int16>, k: nat)
    requires |a| == BlockSamples * k
    ensures Blocks(a + b) == Blocks(a) + Blocks(b)
    decreases k
  {
    if k == 0 {
      assert a + b == b;
    } else {
      assert (a + b)[..BlockSamples] == a[..BlockSamples];
      assert (a + b)[BlockSamples..] == a[BlockSamples..] + b;
      BlocksAppend(a[BlockSamples..], b, k - 1);
    }
  }

  /** Cutting the input after k whole blocks keeps the first k blocks. */
  lemma BlocksPrefix(vs: seq<int16>, k: nat)
    requires BlockSamples * k <= |vs|
    ensures Blocks(vs[..BlockSamples * k]) == Blocks(vs)[..k]
  {
    var a := vs[..BlockSamples * k];
    var b := vs[BlockSamples * k..];
    assert vs == a + b;
    BlocksAppend(a, b, k);
    assert |Blocks(a)| == k;
  }

  lemma DivAtLeast(n: nat, k: nat)
    requires BlockSamples * k <= n
    ensures k <= n / BlockSamples
  {
  }

  lemma FirstFailureAt(writer: nat -> Option<Error>, count: nat, f: nat)
    requires f < count
    requires forall j :: 0 <= j < f ==> writer(j).None?
    requires writer(f).Some?
    ensures FirstFailure(writer, 0, count) == f
  {
  }

  lemma FirstFailureNone(writer: nat -> Option<Error>, count: nat)
    requires forall j :: 0 <= j < count ==> writer(j).None?
    ensures FirstFailure(writer, 0, count) == count
  {
  }

  // ---------------------------------------------------------------------
  // Round trip
  // ---------------------------------------------------------------------

  lemma {:induction false} FlattenBlocks(vs: seq<int16>)
    ensures Flatten(Blocks(vs)) == EncodeAll(vs[..BlockSamples * (|vs| / BlockSamples)])
    decreases |vs|
  {
    if |vs| < BlockSamples {
      assert vs[..0] == [];
    } else {
      var rest := vs[BlockSamples..];
      FlattenBlocks(rest);
      var m := |rest| / BlockSamples;
      assert |vs| / BlockSamples == m + 1;
      var whole := vs[..BlockSamples * (m + 1)];
      assert whole == vs[..BlockSamples] + rest[..BlockSamples * m];
      EncodeAllAppend(vs[..BlockSamples], rest[..BlockSamples * m]);
    }
  }

  lemma {:induction false} EncodeAllAppend(a: seq<int16>, b: seq<int16>)
    ensures EncodeAll(a + b) == EncodeAll(a) + EncodeAll(b)
    decreases |a|
  {
    if |a| > 0 {
      assert (a + b)[1..] == a[1..] + b;
      EncodeAllAppend(a[1..], b);
    } else {
      assert a + b == b;
    }
  }

  ghost predicate EvenChunks(cs: seq<Chunk>)
  {
    forall i :: 0 <= i < |cs| ==> cs[i].err.None? && |cs[i].data| % 2 == 0
  }

  function ChunkBytes(cs: seq<Chunk>): seq<byte>
  {
    if |cs| == 0 then [] else cs[0].data + ChunkBytes(cs[1..])
  }

  lemma {:induction false} DecodeEvenChunks(cs: seq<Chunk>)
    requires EvenChunks(cs)
    ensures DecodeChunks(cs) == DecodeAll(ChunkBytes(cs))
    decreases |cs|
  {
    if |cs| > 0 {
      DecodeEvenChunks(cs[1..]);
      DecodeAllAppend(cs[0].data, ChunkBytes(cs[1..]));
    }
  }

  /** Reading back what Write produced, cut into error-free chunks of even
      length and followed by `io.EOF`, yields exactly the first
      160 * floor(|input| / 160) samples and a nil error. */
  lemma WriteThenRead(input: seq<int16>, cs: seq<Chunk>, eofData: seq<byte>)
    requires EvenChunks(cs)
    requires ChunkBytes(cs) == Flatten(Blocks(input))
    ensures Read(cs + [Chunk(eofData, Some(Eof))]) ==
      Closed(input[..BlockSamples * (|input| / BlockSamples)], None)
  {
    var whole := input[..BlockSamples * (|input| / BlockSamples)];
    assert AllNil(cs);
    ReadToEof(cs, eofData);
    DecodeEvenChunks(cs);
    FlattenBlocks(input);
    assert DecodeChunks(cs) == DecodeAll(EncodeAll(whole));
    DecodeAllEncodeAll(whole);
  }
}
