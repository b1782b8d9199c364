/** The client's jitter buffer (`AudioPlayer.buffer` in client/opusclinte.py):
    a bounded FIFO of decoded PCM frames whose overflow policy is to drop the
    oldest frame. Push and pop are modelled as atomic operations on an
    immutable sequence, oldest frame first; the lock that makes them atomic
    in the source is not modelled. */
module JitterBuffer {
  import opened Optional
  import opened Pcm

  /** `self.max_buffer_size`: about 600 ms of 60 ms frames. */
  const MaxBufferSize: nat := 10

  predicate Bounded<T>(buf: seq<T>) {
    |buf| <= MaxBufferSize
  }

  /** The newest `n` elements of `s`, oldest first: the sliding window a
      drop-oldest queue of capacity `n` keeps. */
  function Newest<T>(s: seq<T>, n: nat): (r: seq<T>)
    ensures |r| == if |s| <= n then |s| else n
  {
    if |s| <= n then s else s[|s| - n..]
  }

  /** Adding a frame: append when below capacity, otherwise evict the front
      (the oldest frame) and append. */
  function Push<T>(buf: seq<T>, frame: T): (r: seq<T>)
    // the new frame is the newest one
    ensures |r| > 0 && r[|r| - 1] == frame
    // below capacity nothing is lost and nothing moves
    ensures |buf| < MaxBufferSize ==> |r| == |buf| + 1 && r[..|buf|] == buf
    // at capacity exactly the oldest frame is evicted
    ensures |buf| >= MaxBufferSize ==> |r| == |buf| && r[..|r| - 1] == buf[1..]
    // from a bounded buffer: the result is bounded and is the window of the newest frames
    ensures Bounded(buf) ==> Bounded(r) && r == Newest(buf + [frame], MaxBufferSize)
  {
    if |buf| < MaxBufferSize then buf + [frame]
    else buf[1..] + [frame]
  }

  /** Taking the oldest frame, as `self.buffer.pop(0)` does; the play loop
      only pops after seeing the buffer non-empty. */
  function Pop<T>(buf: seq<T>): (r: (T, seq<T>))
    requires |buf| > 0
    ensures [r.0] + r.1 == buf
  {
    (buf[0], buf[1..])
  }

  /** Pushing `frames` one after another. */
  function PushAll<T>(buf: seq<T>, frames: seq<T>): seq<T>
    decreases |frames|
  {
    if |frames| == 0 then buf else PushAll(Push(buf, frames[0]), frames[1..])
  }

  lemma NewestOfNewest<T>(s: seq<T>, t: seq<T>, n: nat)
    ensures Newest(Newest(s, n) + t, n) == Newest(s + t, n)
  {
    if |s| > n {
      var w := s[|s| - n..];
      assert (w + t)[|w + t| - n..] == (s + t)[|s + t| - n..] || |w + t| <= n;
      if |w + t| <= n {
        assert |t| == 0;
        assert w + t == w && s + t == s;
      }
    }
  }

  /** However many frames arrive, a bounded buffer ends up holding exactly
      the newest `MaxBufferSize` of everything it has seen, in arrival order. */
  lemma {:induction false} PushAllKeepsNewest<T>(buf: seq<T>, frames: seq<T>)
    requires Bounded(buf)
    ensures Bounded(PushAll(buf, frames))
    ensures PushAll(buf, frames) == Newest(buf + frames, MaxBufferSize)
    decreases |frames|
  {
    if |frames| == 0 {
      assert buf + frames == buf;
    } else {
      var b := Push(buf, frames[0]);
      PushAllKeepsNewest(b, frames[1..]);
      NewestOfNewest(buf + [frames[0]], frames[1..], MaxBufferSize);
      assert buf + [frames[0]] + frames[1..] == buf + frames;
    }
  }

  /** Ten pushes into an empty buffer with no pops fill it exactly. */
  lemma TenPushesFill<T>(frames: seq<T>)
    requires |frames| == MaxBufferSize
    ensures PushAll([], frames) == frames
  {
    PushAllKeepsNewest([], frames);
    assert [] + frames == frames;
  }

  /** The eleventh push evicts frame #1 and keeps frames #2 to #11. */
  lemma EleventhPushEvictsFirst<T>(frames: seq<T>)
    requires |frames| == MaxBufferSize + 1
    ensures PushAll([], frames) == frames[1..]
  {
    PushAllKeepsNewest([], frames);
    assert [] + frames == frames;
  }

  /** `AudioPlayer.play_frame`: reinterpret the decoded bytes as `int16`
      samples and push them; a byte string of odd length makes
      `np.frombuffer` raise, the error is logged, and the buffer is left as
      it was. */
  function PlayFrame(buf: seq<seq<int16>>, pcm: seq<byte>): (r: seq<seq<int16>>)
    ensures |pcm| % 2 != 0 ==> r == buf
    ensures |pcm| % 2 == 0 ==> |r| > 0 && ToBytes(r[|r| - 1]) == pcm && r == Push(buf, r[|r| - 1])
    ensures Bounded(buf) ==> Bounded(r)
  {
    match FromBuffer(pcm)
    case None => buf
    case Some(samples) =>
      ToBytesOfFromBuffer(pcm);
      Push(buf, samples)
  }
}
