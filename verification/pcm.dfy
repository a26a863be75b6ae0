/** Little-endian 16-bit PCM, as produced and consumed by
    `binary.LittleEndian.Uint16` / `PutUint16` with an `int16` conversion. */
module Pcm {
  import opened Samples

  /** `int16(binary.LittleEndian.Uint16([lo, hi]))`. */
  function DecodeLE(lo: byte, hi: byte): int16
  {
    Wrap16(lo + 0x100 * hi)
  }

  /** `binary.LittleEndian.PutUint16(b, uint16(v))`. */
  function EncodeLE(v: int16): (b: seq<byte>)
    ensures |b| == 2
  {
    var u := (v as int) % 0x1_0000;
    [u % 0x100, u / 0x100]
  }

  /** Encoding then decoding a sample gives it back. */
  lemma DecodeEncode(v: int16)
    ensures DecodeLE(EncodeLE(v)[0], EncodeLE(v)[1]) == v
  {
    var u := (v as int) % 0x1_0000;
    assert u % 0x100 + 0x100 * (u / 0x100) == u;
  }

  /** Decoding then encoding a byte pair gives it back: the codec is a
      bijection between byte pairs and samples. */
  lemma EncodeDecode(lo: byte, hi: byte)
    ensures EncodeLE(DecodeLE(lo, hi)) == [lo, hi]
  {
    var u := lo + 0x100 * hi;
    var v := DecodeLE(lo, hi);
    assert (v as int) % 0x1_0000 == u;
    assert u / 0x100 == hi;
    assert u % 0x100 == lo;
  }

  /** Every complete byte pair, in order, as one sample; a dangling odd
      byte is ignored. */
  function DecodeAll(bs: seq<byte>): (r: seq<int16>)
    ensures |r| == |bs| / 2
    decreases |bs|
  {
    if |bs| < 2 then [] else [DecodeLE(bs[0], bs[1])] + DecodeAll(bs[2..])
  }

  /** Sample k of the decoding is bytes 2k and 2k+1. */
  lemma {:induction false} DecodeAllAt(bs: seq<byte>, k: nat)
    requires k < |bs| / 2
    ensures DecodeAll(bs)[k] == DecodeLE(bs[2 * k], bs[2 * k + 1])
    decreases k
  {
    if k > 0 {
      DecodeAllAt(bs[2..], k - 1);
    }
  }

  /** Each sample as two bytes, low byte first, in order. */
  function EncodeAll(vs: seq<int16>): (r: seq<byte>)
    ensures |r| == 2 * |vs|
  {
    if |vs| == 0 then [] else EncodeLE(vs[0]) + EncodeAll(vs[1..])
  }

  /** Bytes 2k and 2k+1 of the encoding are sample k. */
  lemma {:induction false} EncodeAllAt(vs: seq<int16>, k: nat)
    requires k < |vs|
    ensures EncodeAll(vs)[2 * k..2 * k + 2] == EncodeLE(vs[k])
    decreases k
  {
    var r := EncodeAll(vs);
    if k == 0 {
      assert r[..2] == EncodeLE(vs[0]);
    } else {
      EncodeAllAt(vs[1..], k - 1);
      assert r[2 * k..2 * k + 2] == EncodeAll(vs[1..])[2 * (k - 1)..2 * (k - 1) + 2];
    }
  }

  lemma {:induction false} EncodeAllSnoc(vs: seq<int16>, v: int16)
    ensures EncodeAll(vs + [v]) == EncodeAll(vs) + EncodeLE(v)
    decreases |vs|
  {
    if |vs| == 0 {
      assert vs + [v] == [v];
    } else {
      assert (vs + [v])[1..] == vs[1..] + [v];
      EncodeAllSnoc(vs[1..], v);
    }
  }

  /** Decoding what was encoded gives the samples back. */
  lemma {:induction false} DecodeAllEncodeAll(vs: seq<int16>)
    ensures DecodeAll(EncodeAll(vs)) == vs
    decreases |vs|
  {
    if |vs| > 0 {
      var e := EncodeAll(vs);
      assert e[2..] == EncodeAll(vs[1..]);
      DecodeEncode(vs[0]);
      DecodeAllEncodeAll(vs[1..]);
    }
  }

  /** Chunks of even length decode independently of how the bytes are cut. */
  lemma {:induction false} DecodeAllAppend(a: seq<byte>, b: seq<byte>)
    requires |a| % 2 == 0
    ensures DecodeAll(a + b) == DecodeAll(a) + DecodeAll(b)
    decreases |a|
  {
    if |a| == 0 {
      assert a + b == b;
    } else {
      assert (a + b)[2..] == a[2..] + b;
      DecodeAllAppend(a[2..], b);
    }
  }
}
