/** The server side (server/server.py): `wav_to_opus_data` cuts the raw PCM
    into frame-sized chunks, zero-pads the last one and encodes each;
    `send_opus_data` sends the encoded frames in order and then the
    end-of-stream sentinel. The Opus encoder is a foreign library and
    appears as the parameter `encode`; file loading and resampling happen
    before `raw` exists; the 60 ms pacing sleep only spaces the sends out in
    time and is not modelled. */
module Sender {
  import opened Pcm
  import opened Wire
  import opened AudioConfig

  /** `n` zero bytes: `b'\x00' * n`. */
  function Zeros(n: nat): (r: seq<byte>)
    ensures |r| == n && forall i :: 0 <= i < n ==> r[i] == 0
  {
    seq(n, _ => 0)
  }

  /** A short final chunk filled up with zero bytes to a whole frame. */
  function Pad(c: seq<byte>): (r: seq<byte>)
    requires |c| <= FrameBytes
    ensures |r| == FrameBytes && r[..|c|] == c
    ensures forall i :: |c| <= i < FrameBytes ==> r[i] == 0
  {
    c + Zeros(FrameBytes - |c|)
  }

  /** The chunks handed to the encoder, first to last. */
  function Chunks(raw: seq<byte>): (cs: seq<seq<byte>>)
    ensures |cs| == (|raw| + FrameBytes - 1) / FrameBytes
    ensures forall k :: 0 <= k < |cs| ==> |cs[k]| == FrameBytes
    decreases |raw|
  {
    FrameGeometry();
    if |raw| == 0 then []
    else if |raw| < FrameBytes then [Pad(raw)]
    else [raw[..FrameBytes]] + Chunks(raw[FrameBytes..])
  }

  function Min(a: int, b: int): int {
    if a <= b then a else b
  }

  /** The `k`-th chunk is the slice `raw[k*1920 : (k+1)*1920]`, with
      Python's clamping at the end, padded to a whole frame. */
  lemma {:induction false} ChunkAt(raw: seq<byte>, k: nat)
    requires k < |Chunks(raw)|
    ensures k * FrameBytes < |raw|
    ensures k + 1 == |Chunks(raw)| ==> |raw| <= (k + 1) * FrameBytes
    ensures Chunks(raw)[k] == Pad(raw[k * FrameBytes..Min((k + 1) * FrameBytes, |raw|)])
    decreases k
  {
    FrameGeometry();
    if k > 0 {
      var rest := raw[FrameBytes..];
      ChunkAt(rest, k - 1);
      assert Chunks(raw)[k] == Chunks(rest)[k - 1];
      var lo := (k - 1) * FrameBytes;
      var hi := Min(k * FrameBytes, |rest|);
      assert lo + FrameBytes == k * FrameBytes;
      assert hi + FrameBytes == Min((k + 1) * FrameBytes, |raw|);
      SliceOfSuffix(raw, FrameBytes, lo, hi);
    } else if |raw| >= FrameBytes {
      assert raw[..FrameBytes] + [] == raw[..FrameBytes];
    }
  }

  lemma SliceOfSuffix<X>(s: seq<X>, d: nat, lo: nat, hi: nat)
    requires d <= |s| && lo <= hi <= |s| - d
    ensures s[d..][lo..hi] == s[d + lo..d + hi]
  {
    forall i | 0 <= i < hi - lo
      ensures s[d..][lo..hi][i] == s[d + lo..d + hi][i]
    {
    }
  }

  /** Every chunk but the last is an unmodified slice of the input. */
  lemma InnerChunkIsSlice(raw: seq<byte>, k: nat)
    requires k + 1 < |Chunks(raw)|
    ensures (k + 1) * FrameBytes <= |raw|
    ensures Chunks(raw)[k] == raw[k * FrameBytes..(k + 1) * FrameBytes]
  {
    ChunkAt(raw, k);
    ChunkAt(raw, k + 1);
    var s := raw[k * FrameBytes..(k + 1) * FrameBytes];
    assert |s| == FrameBytes;
    assert Pad(s) == s + [];
  }

  /** Only the last chunk can carry padding: it is the rest of the input
      after the full chunks, filled up with zero bytes. */
  lemma LastChunkIsPaddedRest(raw: seq<byte>)
    requires |raw| > 0
    ensures var last := (|Chunks(raw)| - 1) * FrameBytes;
            && last < |raw| <= last + FrameBytes
            && Chunks(raw)[|Chunks(raw)| - 1] == Pad(raw[last..])
  {
    var n := |Chunks(raw)| - 1;
    ChunkAt(raw, n);
  }

  /** The concatenation of a sequence of chunks. */
  function Flatten(cs: seq<seq<byte>>): seq<byte>
    decreases |cs|
  {
    if |cs| == 0 then [] else cs[0] + Flatten(cs[1..])
  }

  /** Gluing the chunks back together gives the input followed by fewer
      than a frame's worth of zero bytes. */
  lemma {:induction false} ChunksRebuildInput(raw: seq<byte>)
    ensures |Chunks(raw)| * FrameBytes - |raw| < FrameBytes
    ensures |Chunks(raw)| * FrameBytes >= |raw|
    ensures Flatten(Chunks(raw)) == raw + Zeros(|Chunks(raw)| * FrameBytes - |raw|)
    decreases |raw|
  {
    FrameGeometry();
    if |raw| == 0 {
      assert raw + Zeros(0) == [];
    } else if |raw| < FrameBytes {
      assert Flatten(Chunks(raw)) == Pad(raw) + [];
    } else {
      var rest := raw[FrameBytes..];
      ChunksRebuildInput(rest);
      var z := Zeros(|Chunks(rest)| * FrameBytes - |rest|);
      assert Flatten(Chunks(raw)) == raw[..FrameBytes] + (rest + z);
      assert raw[..FrameBytes] + rest == raw;
      assert |Chunks(raw)| * FrameBytes - |raw| == |Chunks(rest)| * FrameBytes - |rest|;
    }
  }

  /** `wav_to_opus_data` after loading: for each offset `i` in
      `range(0, len(raw_data), 1920)`, slice, pad when short, view as
      `int16` samples and encode their bytes. */
  method WavToOpusData(raw: seq<byte>, encode: seq<byte> -> Message) returns (opus: seq<Message>)
    ensures |opus| == (|raw| + FrameBytes - 1) / FrameBytes
    ensures forall k :: 0 <= k < |opus| ==> opus[k] == encode(Chunks(raw)[k])
  {
    FrameGeometry();
    opus := [];
    var i := 0;
    while i < |raw|
      invariant i == |opus| * FrameBytes
      invariant |opus| <= |Chunks(raw)|
      invariant forall k :: 0 <= k < |opus| ==> opus[k] == encode(Chunks(raw)[k])
      decreases |raw| - i
    {
      assert |opus| < |Chunks(raw)|;
      var end := Min(i + FrameBytes, |raw|);
      var chunk := raw[i..end];
      if |chunk| < FrameBytes {
        chunk := chunk + Zeros(FrameBytes - |chunk|);
      }
      ChunkAt(raw, |opus|);
      assert chunk == Chunks(raw)[|opus|];
      // `np.frombuffer` cannot fail on a whole frame, and `tobytes` gives the chunk back
      var samples := FromBuffer(chunk).value;
      assert |samples| == SamplesPerFrame;
      ToBytesOfFromBuffer(chunk);
      opus := opus + [encode(ToBytes(samples))];
      i := i + FrameBytes;
    }
  }

  /** The messages the server sends on one connection, first to last. */
  function Transmission(frames: seq<Message>): (ms: seq<Message>)
    ensures |ms| == |frames| + 1
    ensures forall k :: 0 <= k < |frames| ==> ms[k] == frames[k]
    ensures ms[|frames|] == EndOfStream
    // the sentinel is sent exactly once only if no encoded frame happens to spell it
    ensures Occurrences(ms, EndOfStream) == 1 <==> forall k :: 0 <= k < |frames| ==> frames[k] != EndOfStream
  {
    OccurrencesAppend(frames, [EndOfStream], EndOfStream);
    assert [EndOfStream][..0] == [];
    frames + [EndOfStream]
  }

  /** `send_opus_data`: send each frame in list order, then the sentinel. */
  method SendOpusData(frames: seq<Message>) returns (sent: seq<Message>)
    ensures sent == Transmission(frames)
  {
    sent := [];
    for i := 0 to |frames|
      invariant sent == frames[..i]
    {
      sent := sent + [frames[i]];
    }
    assert frames[..|frames|] == frames;
    sent := sent + [EndOfStream];
  }
}
