/** Raw bytes and 16-bit PCM samples, and the reinterpretation between them
    that `numpy.frombuffer(..., dtype=int16)` and `ndarray.tobytes()` perform.
    Samples are stored little-endian, the byte order of the hosts the client
    and server run on and of the PCM that the loader produces. */
module Pcm {
  import opened Optional

  /** One octet, as carried in a `bytes` object. */
  type byte = b: int | 0 <= b < 256

  /** One signed 16-bit sample (`np.int16`). */
  type int16 = x: int | -32768 <= x < 32768

  /** The sample whose little-endian two's-complement encoding is `lo`, `hi`. */
  function Sample(lo: byte, hi: byte): int16 {
    var u := lo + 256 * hi;
    if u < 32768 then u else u - 65536
  }

  /** Low-order byte of the two's-complement encoding of `x`. */
  function Low(x: int16): byte {
    (x % 65536) % 256
  }

  /** High-order byte of the two's-complement encoding of `x`. */
  function High(x: int16): byte {
    (x % 65536) / 256
  }

  lemma SampleOfOwnBytes(x: int16)
    ensures Sample(Low(x), High(x)) == x
  {
  }

  lemma BytesOfOwnSample(lo: byte, hi: byte)
    ensures Low(Sample(lo, hi)) == lo && High(Sample(lo, hi)) == hi
  {
  }

  /** `np.frombuffer(b, dtype=np.int16)`: fails (numpy raises `ValueError`)
      when the length is not a whole number of samples. */
  function FromBuffer(b: seq<byte>): (r: Option<seq<int16>>)
    ensures r.Some? <==> |b| % 2 == 0
    ensures r.Some? ==> |r.value| == |b| / 2
    ensures r.Some? ==> forall i :: 0 <= i < |r.value| ==> r.value[i] == Sample(b[2 * i], b[2 * i + 1])
    decreases |b|
  {
    if |b| % 2 != 0 then None
    else if |b| == 0 then Some([])
    else Some([Sample(b[0], b[1])] + FromBuffer(b[2..]).value)
  }

  /** `ndarray.tobytes()` for an `int16` array. */
  function ToBytes(s: seq<int16>): (b: seq<byte>)
    ensures |b| == 2 * |s|
    ensures forall i :: 0 <= i < |s| ==> b[2 * i] == Low(s[i]) && b[2 * i + 1] == High(s[i])
    decreases |s|
  {
    if |s| == 0 then []
    else [Low(s[0]), High(s[0])] + ToBytes(s[1..])
  }

  /** Writing samples out and reading them back returns the same samples. */
  lemma {:induction false} FromBufferOfToBytes(s: seq<int16>)
    ensures FromBuffer(ToBytes(s)) == Some(s)
    decreases |s|
  {
    if |s| > 0 {
      var b := ToBytes(s);
      FromBufferOfToBytes(s[1..]);
      SampleOfOwnBytes(s[0]);
      assert b[2..] == ToBytes(s[1..]);
      assert [s[0]] + s[1..] == s;
    }
  }

  /** Reinterpreting an even-length buffer as samples loses no byte. */
  lemma {:induction false} ToBytesOfFromBuffer(b: seq<byte>)
    requires |b| % 2 == 0
    ensures FromBuffer(b).Some? && ToBytes(FromBuffer(b).value) == b
    decreases |b|
  {
    if |b| > 0 {
      var s := FromBuffer(b).value;
      ToBytesOfFromBuffer(b[2..]);
      BytesOfOwnSample(b[0], b[1]);
      assert s[1..] == FromBuffer(b[2..]).value;
      assert [b[0], b[1]] + b[2..] == b;
    }
  }
}
