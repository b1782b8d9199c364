# LiveOpusWeb streaming core in Dafny

LiveOpusWeb streams an audio file from a websocket server to a client that plays it.
This project models and proves three parts of that system:

- **The server's frame pipeline** (`Sender`). The raw 16 kHz mono 16-bit PCM is cut into 1920-byte (960-sample, 60 ms) chunks.
  The last chunk is zero-padded, and each chunk is encoded.
  The encoded frames are then sent in order, followed by the in-band sentinel `b'END_OF_STREAM'`.
- **The client's connection loop** (`Session`). `receive_and_play` is factored into a pure transition function.
  It works over `retry_count`, `stream_active` and the phase the loop is in, and is driven by events: connected, message received, receive timeout, close with a status code, other exception.
  `Run` drives it over whole event sequences.
- **The client's jitter buffer and play loop** (`JitterBuffer`, `Playback`). The buffer is a FIFO holding at most 10 PCM frames and drops the oldest frame on overflow.
  A play loop pops from the front.
  The two threads are modelled as one interleaving of atomic push and pop steps.

Supporting modules:

- `Pcm`: bytes, `int16` samples, and the little-endian reinterpretation done by `np.frombuffer`/`tobytes`.
- `Wire`: the message type, the sentinel literal and occurrence counting.
- `AudioConfig`: the audio constants.
- `EndToEnd`: feeds the server's message sequence to the client's state machine.

Messages are byte sequences, and the client recognises the end of the stream by comparing a message with the sentinel literal, just as the code does.
So the lemma `EndToEnd.CollidingFrameEndsStream` can show that an encoded frame which happened to spell `END_OF_STREAM` would end the stream early.

Behaviours of the client that are easy to misread, as the model captures them:

- Unlike an abnormal close, a receive timeout does **not** increment `retry_count` (client/opusclinte.py:105-107). It only leaves the inner loop, and the client reconnects. The counter was already reset to 0 on connect (line 88), so timeouts never make the client give up (`Session.TimeoutsNeverExhaustRetries`).
- The counter resets on every successful connect, not on every received frame.
- A frame the Opus decoder rejects raises out of the inner `try`, which catches only timeouts. The outer `except Exception` then treats it as a connection error: one retry, a 3-second backoff and a reconnect (`OtherError`). An undecodable frame is therefore not dropped on its own: it costs a retry and a reconnect.
- Every close code other than exactly 1000 is abnormal, including 1001 ("going away").
- On a failure the client sleeps for the backoff even when that failure exhausted the retries. `Step` therefore returns `Backoff` and moves straight to `Stopped`.
- `play_frame` catches its own errors. A decoded buffer of odd length makes `np.frombuffer` raise, the error is logged and the buffer is left unchanged (`JitterBuffer.PlayFrame`).

## Model

| member | source | states |
|---|---|---|
| `Pcm.FromBuffer` | client/opusclinte.py:54 | Reading bytes as `int16` fails exactly when the length is odd. Otherwise it yields half as many samples, and sample i is bytes 2i, 2i+1 read little-endian. |
| `Pcm.ToBytes` | server/server.py:52 | `tobytes()` yields two bytes per sample, the low and the high byte of sample i at positions 2i and 2i+1. |
| `Pcm.FromBufferOfToBytes` | server/server.py:49-52 | Turning samples into bytes and reading them back returns the same samples. |
| `Pcm.ToBytesOfFromBuffer` | server/server.py:49-52 | An even-length buffer read as samples and written back is unchanged, so the encoder receives exactly the chunk. |
| `AudioConfig.FrameGeometry` | server/server.py:35-36 | `int(16000 * 60 / 1000)` is 960 samples per frame, which is 1920 bytes. |
| `Wire.EndOfStreamBytes` | server/server.py:17 | The sentinel is the 13 ASCII bytes of `END_OF_STREAM`. |
| `JitterBuffer.Push` | client/opusclinte.py:55-61 | The new frame always becomes the newest. Below capacity the old contents stay unchanged and in order. At capacity exactly the oldest frame is evicted and the length stays the same. From a bounded buffer the result is bounded and equals the newest 10 of the old contents plus the new frame. |
| `JitterBuffer.Pop` | client/opusclinte.py:42-44 | A pop on a non-empty buffer returns the front frame and the tail, and together they rebuild the buffer. |
| `JitterBuffer.PushAllKeepsNewest` | client/opusclinte.py:52-61 | After any run of pushes, a bounded buffer stays bounded and holds exactly the newest 10 frames it has seen, in arrival order. |
| `JitterBuffer.TenPushesFill` | client/opusclinte.py:56-57 | Ten pushes into an empty buffer keep all ten frames. |
| `JitterBuffer.EleventhPushEvictsFirst` | client/opusclinte.py:58-61 | Eleven pushes into an empty buffer keep frames #2 to #11. |
| `JitterBuffer.PlayFrame` | client/opusclinte.py:52-63 | An odd-length PCM payload leaves the buffer unchanged. Otherwise the payload is pushed as one frame whose bytes are exactly the payload. Boundedness is preserved. |
| `Playback.Step` | client/opusclinte.py:40-61 | An arrival goes through the drop-oldest push: the new frame becomes the newest, and one frame (the oldest) is counted as evicted exactly when the buffer was already full. A play-loop iteration moves the oldest frame to the device without changing the order of played plus buffered frames. It idles on an empty buffer. |
| `Playback.RunKeepsOrdered` | client/opusclinte.py:40-61 | Labelled by arrival number, the played and buffered frames are strictly increasing and all have arrived. Their count plus the evictions equals the arrivals. With no eviction they are exactly the arrivals. |
| `Playback.RunRelabel` | client/opusclinte.py:40-61 | The buffer never looks at frame contents: running on frames equals running on arrival numbers and then looking the frames up. |
| `Playback.PlaybackOrder` | client/opusclinte.py:40-61 | For every interleaving of arrivals and play-loop iterations, the played and buffered frames are the arrivals taken at strictly increasing arrival numbers. Nothing is lost except frames evicted by pushes into a full buffer, with no eviction they are exactly the arrivals, and the buffer stays within 10. |
| `Playback.Drain` | client/opusclinte.py:65-68 | Waiting for the buffer to empty ends with an empty buffer, and every buffered frame has been played after the earlier ones, in order. |
| `Session.Step` | client/opusclinte.py:80-122 | A connect resets the counter and starts receiving. A non-1000 close or any other exception, while connecting or streaming, adds exactly one retry and a backoff and leaves `stream_active` unchanged. The sentinel or a 1000 close ends the session without a retry. A timeout keeps both variables. Only a non-sentinel message is played. After leaving a connection the loop guard `retry_count < 3 and stream_active` decides whether the client connects again. Valid states stay valid. |
| `Session.RunKeepsValid` | client/opusclinte.py:77-122 | On every event sequence, a valid state stays valid: the counter is at most 3, streaming implies counter 0, and the loop is exited only when its guard fails. |
| `Session.RetryBound` | client/opusclinte.py:77-80 | From the start, the counter never exceeds 3, and once it reaches 3 no event, in particular no connect, can follow. |
| `Session.StoppedIsFinal` | client/opusclinte.py:80 | After the outer loop exits, no event is processed. |
| `Session.MidStreamDropReconnects` | client/opusclinte.py:109-117 | An abnormal close while streaming costs one retry and a backoff, keeps `stream_active`, and leads to a new connect that resets the counter to 0. |
| `Session.ConsecutiveFailures` | client/opusclinte.py:109-122 | k consecutive failed attempts raise the counter by k with one backoff each. The client keeps trying while the counter is below 3. A further attempt after that cannot happen. |
| `Session.TwoFailuresThenConnect` | client/opusclinte.py:88-117 | Two abnormal closes leave the counter at 2 with a third attempt pending, and a successful third connect resets it to 0. |
| `Session.TimeoutsNeverExhaustRetries` | client/opusclinte.py:105-107 | Any number of connect-then-timeout rounds brings the client back to its initial state, ready to reconnect. |
| `Session.SentinelNeverPlayed` | client/opusclinte.py:97-103 | On no event sequence is the sentinel ever decoded and played. |
| `Sender.Pad` | server/server.py:45-46 | A short chunk is extended to exactly 1920 bytes. Its own bytes stay in front and only zero bytes follow. |
| `Sender.Chunks` | server/server.py:40-46 | The number of chunks is ceil(len(raw)/1920), so empty input gives none, and every chunk is exactly 1920 bytes. |
| `Sender.ChunkAt` | server/server.py:40-46 | Chunk k is the clamped slice `raw[k*1920:(k+1)*1920]`, padded, and starts inside the input. |
| `Sender.InnerChunkIsSlice` | server/server.py:40-42 | Every chunk except the last is an unmodified full slice of the input. |
| `Sender.LastChunkIsPaddedRest` | server/server.py:42-46 | The last chunk is the remaining 1 to 1920 input bytes followed only by zero padding. |
| `Sender.ChunksRebuildInput` | server/server.py:40-46 | Concatenating the chunks gives the input followed by fewer than 1920 zero bytes. |
| `Sender.WavToOpusData` | server/server.py:38-55 | The encoding loop yields one encoded frame per chunk, in chunk order. The encoder receives each chunk's bytes unchanged. |
| `Sender.Transmission` | server/server.py:13-17 | The messages are the frames in list order followed by the sentinel as the final message. The sentinel occurs exactly once if and only if no frame equals it. |
| `Sender.SendOpusData` | server/server.py:8-17 | The send loop emits exactly that message sequence. |
| `EndToEnd.ReceiveUntilSentinel` | client/opusclinte.py:90-103 | On an open connection, the client plays every message before the first sentinel, in order, then shuts down with the counter untouched. |
| `EndToEnd.ClientPlaysEveryFrame` | client/opusclinte.py:80-103 | If no encoded frame spells the sentinel, a client that connects plays every frame the server sends, in order, and ends normally. |
| `EndToEnd.CollidingFrameEndsStream` | client/opusclinte.py:97-100 | A frame equal to the sentinel bytes ends the session early. The client plays only the frames before it and receives nothing after it. |

## Left out

- Network transport: `websockets.connect`/`serve`, the ping settings, the server's accept loop and the closing handshake at the end of `async with` appear only as events and message sequences. An exception raised by that closing handshake is not modelled.
- Codec: the Opus encoder and decoder are foreign libraries. The encoder is the parameter `encode` of `Sender.WavToOpusData`, and decoding is left implicit in the `Play` action. The real encoder keeps state across frames, and a pure function does not model that. The frame-size argument (960) passed to the encoder is shown to match the chunk's sample count but is not passed. The silence round-trip through the codec is not modelled.
- File loading: pydub loading, channel and sample-rate conversion and the float `duration` happen before the raw PCM exists.
- Audio device: opening, writing to and closing the `sounddevice` stream are device I/O. A failed write is logged and skipped in the source, so a popped frame counts as played either way.
- Threading: the lock, the daemon play thread, the unlocked emptiness check in `_play_loop` and the polling in `wait_for_empty` are replaced by an interleaving of atomic steps.
- Timing: the 60 ms send pacing, the 1 ms and 100 ms polling sleeps, the 3 s backoff and the 5 s receive timeout are wall-clock time. They appear only as the `Backoff` action and the `Timeout` event.
- Logging, the server's `print`, `__main__` and the `KeyboardInterrupt` handler add no behaviour to model.
- `Pcm.FromBuffer`: treats an empty byte string as an empty sample array. The decoder never returns one.
