/** The server's message sequence fed to the client's session machine:
    what the client plays when the server streams a file, and how a frame
    that happens to spell the sentinel cuts the stream short. */
module EndToEnd {
  import opened Optional
  import opened Wire
  import opened Session
  import opened Sender

  /** The client receiving `ms` in order on an open connection. */
  function Deliver(ms: seq<Message>): (es: seq<Event>)
    ensures |es| == |ms| && forall k :: 0 <= k < |ms| ==> es[k] == Received(ms[k])
  {
    seq(|ms|, k requires 0 <= k < |ms| => Received(ms[k]))
  }

  /** The client deciding to play each of `ms`. */
  function Plays(ms: seq<Message>): (acts: seq<Action>)
    ensures |acts| == |ms| && forall k :: 0 <= k < |ms| ==> acts[k] == Play(ms[k])
  {
    seq(|ms|, k requires 0 <= k < |ms| => Play(ms[k]))
  }

  const Listening: Session := Session(0, true, Streaming)

  /** On an open connection the client plays every message up to the first
      sentinel, in order, and then shuts down without retrying. */
  lemma DeliverCons(ms: seq<Message>)
    requires |ms| > 0
    ensures Deliver(ms) == [Received(ms[0])] + Deliver(ms[1..])
  {
  }

  lemma PlaysCons(ms: seq<Message>)
    requires |ms| > 1
    ensures Plays(ms[..|ms| - 1]) == [Play(ms[0])] + Plays(ms[1..][..|ms| - 2])
  {
  }

  lemma {:induction false} ReceiveUntilSentinel(ms: seq<Message>)
    requires |ms| > 0 && ms[|ms| - 1] == EndOfStream
    requires forall k :: 0 <= k < |ms| - 1 ==> ms[k] != EndOfStream
    ensures Run(Listening, Deliver(ms)) == Some(Trace(Session(0, false, Stopped), Plays(ms[..|ms| - 1]) + [Shutdown]))
    decreases |ms|
  {
    DeliverCons(ms);
    var done := Session(0, false, Stopped);
    if |ms| == 1 {
      assert Deliver(ms[1..]) == [];
      assert Step(Listening, Received(ms[0])) == Some(Transition(done, Shutdown));
      RunPrepend(Listening, Received(ms[0]), [], Transition(done, Shutdown), Trace(done, []));
      assert [Received(ms[0])] + [] == Deliver(ms);
      assert Plays(ms[..0]) + [Shutdown] == [Shutdown] + [];
    } else {
      var rest := ms[1..];
      ReceiveUntilSentinel(rest);
      var tail := Trace(done, Plays(rest[..|rest| - 1]) + [Shutdown]);
      assert Step(Listening, Received(ms[0])) == Some(Transition(Listening, Play(ms[0])));
      RunPrepend(Listening, Received(ms[0]), Deliver(rest), Transition(Listening, Play(ms[0])), tail);
      PlaysCons(ms);
      assert [Play(ms[0])] + (Plays(rest[..|rest| - 1]) + [Shutdown]) == Plays(ms[..|ms| - 1]) + [Shutdown];
    }
  }

  /** When no encoded frame spells the sentinel, a client that connects
      plays every frame the server sends, in order, and then ends the
      session normally. */
  lemma ClientPlaysEveryFrame(frames: seq<Message>)
    requires forall k :: 0 <= k < |frames| ==> frames[k] != EndOfStream
    ensures Run(Initial, [Connected] + Deliver(Transmission(frames))) ==
              Some(Trace(Session(0, false, Stopped), [Listen] + Plays(frames) + [Shutdown]))
  {
    var ms := Transmission(frames);
    ReceiveUntilSentinel(ms);
    assert ms[..|ms| - 1] == frames;
    RunPrepend(Initial, Connected, Deliver(ms), Transition(Listening, Listen), Run(Listening, Deliver(ms)).value);
    assert [Listen] + (Plays(frames) + [Shutdown]) == [Listen] + Plays(frames) + [Shutdown];
  }

  /** The collision hazard: if encoded frame `k` happens to equal the
      sentinel bytes, the client takes it for the end of the stream. It
      plays only the frames before it, ends the session, and never receives
      the frames after it. */
  lemma CollidingFrameEndsStream(frames: seq<Message>, k: nat)
    requires k < |frames| && frames[k] == EndOfStream
    requires forall j :: 0 <= j < k ==> frames[j] != EndOfStream
    ensures var early := Transmission(frames)[..k + 1];
            && |early| < |Transmission(frames)|
            && Run(Initial, [Connected] + Deliver(early)) ==
                 Some(Trace(Session(0, false, Stopped), [Listen] + Plays(frames[..k]) + [Shutdown]))
            && forall e :: Step(Session(0, false, Stopped), e).None?
  {
    var early := Transmission(frames)[..k + 1];
    ReceiveUntilSentinel(early);
    assert early[..k] == frames[..k];
    RunPrepend(Initial, Connected, Deliver(early), Transition(Listening, Listen), Run(Listening, Deliver(early)).value);
    assert [Listen] + (Plays(frames[..k]) + [Shutdown]) == [Listen] + Plays(frames[..k]) + [Shutdown];
  }
}
