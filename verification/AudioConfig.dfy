/** The audio parameters that the client (client/opusclinte.py) and the server
    (server/server.py) each define, and that must agree for the stream to play:
    mono 16-bit PCM at 16 kHz, cut into 60 ms frames. */
module AudioConfig {

  const SampleRate: nat := 16000
  const FrameDurationMs: nat := 60

  /** `int(16000 * 60 / 1000)`; the float division is exact here, so the
      truncating `int(...)` and Dafny's division agree. */
  const SamplesPerFrame: nat := SampleRate * FrameDurationMs / 1000

  /** `int16` samples take two bytes each. */
  const BytesPerSample: nat := 2

  /** Bytes of PCM in one frame: the server's `frame_size * 2`. */
  const FrameBytes: nat := SamplesPerFrame * BytesPerSample

  lemma FrameGeometry()
    ensures SamplesPerFrame == 960 && FrameBytes == 1920
  {
  }
}
