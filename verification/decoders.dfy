/** The sound-file decoders of bot/decoders.go: the extension registry and
    the raw little-endian PCM reader. An `os.File` read is modelled by the
    bytes it placed in the buffer and the error it returned. */
module Decoders {
  import opened Samples
  import opened Errors
  import opened Pcm

  /** The two registered decoders: raw PCM and the opus stream library. */
  datatype Decoder = RawDecoder | OpusDecoder

  /** The `decoders` table, keyed by file extension. */
  const Registry: map<string, Decoder> := map[".raw" := RawDecoder, ".opus" := OpusDecoder]

  /** Exactly ".raw" and ".opus" are registered, each with its own decoder. */
  lemma RegistryContents(ext: string)
    ensures ext in Registry <==> ext == ".raw" || ext == ".opus"
    ensures ext == ".raw" ==> Registry[ext] == RawDecoder
    ensures ext == ".opus" ==> Registry[ext] == OpusDecoder
  {
  }

  /** `file.Read(pcm)`: the file is asked for up to 2*len(pcm) bytes; the
      reply is the bytes it delivered and its error. On an error the sample
      count is still n/2 but nothing is decoded; otherwise every complete
      byte pair is stored, in order, at the front of `pcm`. */
  method RawRead(pcm: seq<int16>, data: seq<byte>, err: Option<Error>)
      returns (pcm': seq<int16>, count: int, e: Option<Error>)
    requires |data| <= 2 * |pcm|
    ensures count == |data| / 2 && count <= |pcm| && e == err && |pcm'| == |pcm|
    ensures err.Some? ==> pcm' == pcm
    ensures err.None? ==> pcm'[..count] == DecodeAll(data) && pcm'[count..] == pcm[count..]
  {
    var n := |data|;
    if err.Some? {
      return pcm, n / 2, err;
    }
    pcm' := pcm;
    var i := 0;
    while i < n - 1
      invariant 0 <= i <= n && i % 2 == 0
      invariant i < n - 1 || i / 2 == n / 2
      invariant |pcm'| == |pcm|
      invariant pcm'[..i / 2] == DecodeAll(data[..i])
      invariant pcm'[i / 2..] == pcm[i / 2..]
    {
      DecodeAllSnocPair(data[..i], data[i], data[i + 1]);
      assert data[..i + 2] == data[..i] + [data[i], data[i + 1]];
      pcm' := pcm'[i / 2 := DecodeLE(data[i], data[i + 1])];
      assert pcm'[..i / 2 + 1] == pcm'[..i / 2] + [pcm'[i / 2]];
      i := i + 2;
    }
    assert DecodeAll(data[..i]) == DecodeAll(data) by {
      OddTail(data, i);
    }
    return pcm', n / 2, None;
  }

  /** Appending a byte pair to an even-length prefix appends one sample. */
  lemma DecodeAllSnocPair(bs: seq<byte>, lo: byte, hi: byte)
    requires |bs| % 2 == 0
    ensures DecodeAll(bs + [lo, hi]) == DecodeAll(bs) + [DecodeLE(lo, hi)]
  {
    DecodeAllAppend(bs, [lo, hi]);
    assert [lo, hi][2..] == [];
  }

  /** Once the loop stops, only a dangling odd byte is left undecoded. */
  lemma OddTail(data: seq<byte>, i: int)
    requires 0 <= i <= |data| && i % 2 == 0 && i >= |data| - 1
    ensures DecodeAll(data[..i]) == DecodeAll(data)
  {
    if i < |data| {
      DecodeAllAppend(data[..i], data[i..]);
      assert data[..i] + data[i..] == data;
    } else {
      assert data[..i] == data;
    }
  }

  /** The raw reader and audio.Read decode a chunk identically: an odd last
      byte is ignored by both. */
  lemma RawReadAgreesWithFileRead(data: seq<byte>)
    ensures DecodeAll(data) == DecodeAll(if |data| % 2 != 0 then data[..|data| - 1] else data)
  {
    if |data| % 2 != 0 {
      OddTail(data, |data| - 1);
    }
  }
}
