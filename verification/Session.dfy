/** The connection lifecycle of `receive_and_play` (client/opusclinte.py),
    factored into a pure transition function. The source interleaves two
    loops: the outer one reconnects while `retry_count < max_retries and
    stream_active`; the inner one, inside `async with websockets.connect(...)`,
    receives with a 5-second timeout while `stream_active`. The model keeps
    the source's two variables and adds the phase it is in: trying to
    connect, streaming inside the connection, or out of the outer loop.
    Network calls, sleeps and timeouts become events and actions. */
module Session {
  import opened Optional
  import opened Wire

  /** `max_retries` */
  const MaxRetries: nat := 3

  /** Status code 1000, normal closure, in section 7.4.1 of RFC 6455. */
  const NormalClosure: int := 1000

  datatype Phase =
    | Connecting   // at the top of the outer loop, about to call `connect`
    | Streaming    // inside the connection, waiting in `recv`
    | Stopped      // the outer loop has exited: drain the player and close it

  datatype Session = Session(retryCount: nat, streamActive: bool, phase: Phase)

  /** What the environment can do next. */
  datatype Event =
    | Connected             // the websocket handshake succeeded
    | Received(msg: Message) // `recv` returned a message
    | Timeout               // `asyncio.wait_for` gave up after 5 seconds
    | Closed(code: int)     // `websockets.ConnectionClosed` with this status code
    | OtherError            // any other exception: failed connect, undecodable frame, ...

  /** What the client does in response. */
  datatype Action =
    | Listen                // start receiving on the new connection
    | Play(frame: Message)  // decode the frame and push it into the jitter buffer
    | Reconnect             // leave the connection and connect again at once
    | Backoff               // log, sleep 3 seconds, then re-test the loop guard
    | Shutdown              // leave the outer loop

  datatype Transition = Transition(next: Session, action: Action)

  /** `retry_count = 0; stream_active = True`, before the first connect. */
  const Initial: Session := Session(0, true, Connecting)

  /** The outer `while` condition. */
  predicate LoopGuard(retryCount: nat, streamActive: bool) {
    retryCount < MaxRetries && streamActive
  }

  /** Back at the top of the outer loop with these values: either connect
      again or leave. */
  function Resume(retryCount: nat, streamActive: bool): Session {
    Session(retryCount, streamActive, if LoopGuard(retryCount, streamActive) then Connecting else Stopped)
  }

  /** A close with a code other than 1000, or any other exception. */
  predicate IsFailure(e: Event) {
    (e.Closed? && e.code != NormalClosure) || e.OtherError?
  }

  /** The states `receive_and_play` can be in. */
  predicate Valid(s: Session) {
    && s.retryCount <= MaxRetries
    && (s.phase == Connecting ==> LoopGuard(s.retryCount, s.streamActive))
    && (s.phase == Streaming ==> s.retryCount == 0 && s.streamActive)
    && (s.phase == Stopped ==> !LoopGuard(s.retryCount, s.streamActive))
  }

  /** One transition. `None` means the event cannot happen in that phase:
      nothing is received before a connection exists, a connection is not
      made while one is open, and nothing happens after the outer loop has
      exited. */
  function Step(s: Session, e: Event): (r: Option<Transition>)
    ensures r.None? <==> s.phase == Stopped
                         || (s.phase == Connecting && (e.Received? || e.Timeout?))
                         || (s.phase == Streaming && e.Connected?)
    // a successful connection resets the counter and starts receiving
    ensures r.Some? && e.Connected? ==> r.value.next.retryCount == 0
    ensures r.Some? && e.Connected? && s.streamActive ==> r.value == Transition(Session(0, true, Streaming), Listen)
    // an abnormal close or any other exception, while connecting or streaming, costs exactly
    // one retry and a backoff and leaves `stream_active` alone, so the client tries again
    // unless that retry was the last
    ensures r.Some? && IsFailure(e) ==>
              && r.value.next.retryCount == s.retryCount + 1
              && r.value.next.streamActive == s.streamActive
              && r.value.action == Backoff
    // the sentinel and a normal close end the session without a retry
    ensures r.Some? && (e == Received(EndOfStream) || e == Closed(NormalClosure)) ==>
              r.value.next == Session(s.retryCount, false, Stopped) && r.value.action == Shutdown
    // a timeout leaves both variables as they were
    ensures r.Some? && e.Timeout? ==>
              r.value.next.retryCount == s.retryCount && r.value.next.streamActive == s.streamActive
    // only a received message other than the sentinel is ever played
    ensures r.Some? && r.value.action.Play? ==> e.Received? && e.msg != EndOfStream && r.value.action.frame == e.msg
    ensures r.Some? && e.Received? && e.msg != EndOfStream ==> r.value == Transition(s, Play(e.msg))
    // leaving the connection re-tests the outer loop guard
    ensures r.Some? && r.value.next.phase != Streaming ==>
              (r.value.next.phase == Connecting <==> LoopGuard(r.value.next.retryCount, r.value.next.streamActive))
    ensures r.Some? && Valid(s) ==> Valid(r.value.next)
  {
    match s.phase
    case Stopped => None
    case Connecting =>
      (match e
       case Connected =>
         if s.streamActive then Some(Transition(Session(0, true, Streaming), Listen))
         // not reachable from `Initial` (the outer guard needs `stream_active`); the code
         // would skip the inner loop and leave the outer one
         else Some(Transition(Resume(0, false), Shutdown))
       case Received(_) => None
       case Timeout => None
       case Closed(code) => Some(Close(s, code))
       case OtherError => Some(Fail(s)))
    case Streaming =>
      (match e
       case Connected => None
       case Received(msg) =>
         if msg == EndOfStream then Some(Transition(Resume(s.retryCount, false), Shutdown))
         else Some(Transition(s, Play(msg)))
       case Timeout =>
         var n := Resume(s.retryCount, s.streamActive);
         Some(Transition(n, if n.phase == Connecting then Reconnect else Shutdown))
       case Closed(code) => Some(Close(s, code))
       case OtherError => Some(Fail(s)))
  }

  /** The `except websockets.ConnectionClosed` branch. */
  function Close(s: Session, code: int): Transition {
    if code == NormalClosure then Transition(Resume(s.retryCount, false), Shutdown)
    else Fail(s)
  }

  /** The retry branches: count the failure and back off. */
  function Fail(s: Session): Transition {
    Transition(Resume(s.retryCount + 1, s.streamActive), Backoff)
  }

  datatype Trace = Trace(final: Session, actions: seq<Action>)

  /** Driving the session with a sequence of events; `None` if some event
      could not have happened. */
  function Run(s: Session, es: seq<Event>): Option<Trace>
    decreases |es|
  {
    if |es| == 0 then Some(Trace(s, []))
    else match Step(s, es[0])
      case None => None
      case Some(t) =>
        match Run(t.next, es[1..])
        case None => None
        case Some(rest) => Some(Trace(rest.final, [t.action] + rest.actions))
  }

  lemma RunPrepend(s: Session, e: Event, rest: seq<Event>, t: Transition, tr: Trace)
    requires Step(s, e) == Some(t) && Run(t.next, rest) == Some(tr)
    ensures Run(s, [e] + rest) == Some(Trace(tr.final, [t.action] + tr.actions))
  {
    assert ([e] + rest)[0] == e && ([e] + rest)[1..] == rest;
  }

  /** Every state reachable from a valid one is valid. */
  lemma {:induction false} RunKeepsValid(s: Session, es: seq<Event>)
    requires Valid(s)
    ensures Run(s, es).Some? ==> Valid(Run(s, es).value.final)
    decreases |es|
  {
    if |es| > 0 && Step(s, es[0]).Some? {
      RunKeepsValid(Step(s, es[0]).value.next, es[1..]);
    }
  }

  /** The counter never exceeds `max_retries`, and once it reaches it the
      client has given up: no event, in particular no connect, can follow. */
  lemma RetryBound(es: seq<Event>)
    requires Run(Initial, es).Some?
    ensures Run(Initial, es).value.final.retryCount <= MaxRetries
    ensures Run(Initial, es).value.final.retryCount == MaxRetries ==>
              forall e :: Step(Run(Initial, es).value.final, e).None?
  {
    RunKeepsValid(Initial, es);
  }

  /** Once the outer loop has exited, no further event is processed. */
  lemma StoppedIsFinal(s: Session, es: seq<Event>)
    requires s.phase == Stopped
    ensures Run(s, es).Some? <==> |es| == 0
  {
  }

  /** `n` copies of `b`. */
  function Repeat<X>(b: X, n: nat): (r: seq<X>)
    ensures |r| == n && forall k :: 0 <= k < n ==> r[k] == b
  {
    seq(n, _ => b)
  }

  /** Consecutive failed attempts: each costs one retry and one backoff;
      after the third the client gives up, and a fourth attempt cannot
      happen. */
  lemma {:induction false} ConsecutiveFailures(s: Session, es: seq<Event>)
    requires Valid(s) && s.phase == Connecting
    requires forall k :: 0 <= k < |es| ==> IsFailure(es[k])
    ensures |es| <= MaxRetries - s.retryCount ==>
              Run(s, es) == Some(Trace(Resume(s.retryCount + |es|, true), Repeat(Backoff, |es|)))
    ensures |es| > MaxRetries - s.retryCount ==> Run(s, es).None?
    decreases |es|
  {
    if |es| > 0 {
      var t := Step(s, es[0]).value;
      assert t == Transition(Resume(s.retryCount + 1, true), Backoff);
      assert es == [es[0]] + es[1..];
      if t.next.phase == Connecting {
        ConsecutiveFailures(t.next, es[1..]);
        if |es| <= MaxRetries - s.retryCount {
          RunPrepend(s, es[0], es[1..], t, Run(t.next, es[1..]).value);
          assert [Backoff] + Repeat(Backoff, |es| - 1) == Repeat(Backoff, |es|);
        }
      } else {
        StoppedIsFinal(t.next, es[1..]);
        if |es| == 1 {
          assert es[1..] == [];
          RunPrepend(s, es[0], es[1..], t, Trace(t.next, []));
          assert [Backoff] + [] == [Backoff] == Repeat(Backoff, 1);
        }
      }
    }
  }

  /** Two abnormal closes leave the counter at 2 with a third attempt still
      to come, and a successful third connect resets it to 0. */
  lemma TwoFailuresThenConnect()
    ensures Run(Initial, [Closed(1006), Closed(1006)]) == Some(Trace(Session(2, true, Connecting), [Backoff, Backoff]))
    ensures Run(Initial, [Closed(1006), Closed(1006), Connected]) ==
              Some(Trace(Session(0, true, Streaming), [Backoff, Backoff, Listen]))
  {
    var s2 := Session(2, true, Connecting);
    var s1 := Session(1, true, Connecting);
    var streaming := Session(0, true, Streaming);
    assert Run(s2, [Connected]) == Some(Trace(streaming, [Listen])) by {
      RunPrepend(s2, Connected, [], Transition(streaming, Listen), Trace(streaming, []));
      assert [Connected] + [] == [Connected];
      assert [Listen] + [] == [Listen];
    }
    assert Run(s1, [Closed(1006), Connected]) == Some(Trace(streaming, [Backoff, Listen])) by {
      RunPrepend(s1, Closed(1006), [Connected], Transition(s2, Backoff), Trace(streaming, [Listen]));
      assert [Closed(1006)] + [Connected] == [Closed(1006), Connected];
      assert [Backoff] + [Listen] == [Backoff, Listen];
    }
    assert Run(Initial, [Closed(1006), Closed(1006), Connected]) == Some(Trace(streaming, [Backoff, Backoff, Listen])) by {
      RunPrepend(Initial, Closed(1006), [Closed(1006), Connected], Transition(s1, Backoff), Trace(streaming, [Backoff, Listen]));
      assert [Closed(1006)] + [Closed(1006), Connected] == [Closed(1006), Closed(1006), Connected];
      assert [Backoff] + [Backoff, Listen] == [Backoff, Backoff, Listen];
    }
    assert Run(s1, [Closed(1006)]) == Some(Trace(s2, [Backoff])) by {
      RunPrepend(s1, Closed(1006), [], Transition(s2, Backoff), Trace(s2, []));
      assert [Closed(1006)] + [] == [Closed(1006)];
      assert [Backoff] + [] == [Backoff];
    }
    assert Run(Initial, [Closed(1006), Closed(1006)]) == Some(Trace(s2, [Backoff, Backoff])) by {
      RunPrepend(Initial, Closed(1006), [Closed(1006)], Transition(s1, Backoff), Trace(s2, [Backoff]));
      assert [Closed(1006)] + [Closed(1006)] == [Closed(1006), Closed(1006)];
      assert [Backoff] + [Backoff] == [Backoff, Backoff];
    }
  }

  /** An abnormal close in the middle of a stream costs one retry and a
      backoff, after which the client connects again, and that connection
      resets the counter to 0. */
  lemma MidStreamDropReconnects(code: int)
    requires code != NormalClosure
    ensures Run(Session(0, true, Streaming), [Closed(code)]) ==
              Some(Trace(Session(1, true, Connecting), [Backoff]))
    ensures Run(Session(0, true, Streaming), [Closed(code), Connected]) ==
              Some(Trace(Session(0, true, Streaming), [Backoff, Listen]))
  {
    var streaming := Session(0, true, Streaming);
    var retrying := Session(1, true, Connecting);
    assert Step(streaming, Closed(code)) == Some(Transition(retrying, Backoff));
    assert Step(retrying, Connected) == Some(Transition(streaming, Listen));
    assert Run(retrying, [Connected]) == Some(Trace(streaming, [Listen])) by {
      RunPrepend(retrying, Connected, [], Transition(streaming, Listen), Trace(streaming, []));
      assert [Connected] + [] == [Connected];
      assert [Listen] + [] == [Listen];
    }
    RunPrepend(streaming, Closed(code), [], Transition(retrying, Backoff), Trace(retrying, []));
    assert [Closed(code)] + [] == [Closed(code)];
    assert [Backoff] + [] == [Backoff];
    RunPrepend(streaming, Closed(code), [Connected], Transition(retrying, Backoff), Trace(streaming, [Listen]));
    assert [Closed(code)] + [Connected] == [Closed(code), Connected];
    assert [Backoff] + [Listen] == [Backoff, Listen];
  }

  /** A receive timeout does not consume a retry: the connection happened
      after the counter was reset, and the timeout leaves it at 0. So any
      number of connect-then-timeout rounds brings the client back to its
      initial state, ready to reconnect; timeouts alone never make it give
      up. */
  lemma {:induction false} TimeoutsNeverExhaustRetries(n: nat)
    ensures Run(Initial, Rounds(n)) == Some(Trace(Initial, Repeat2(Listen, Reconnect, n)))
  {
    if n > 0 {
      TimeoutsNeverExhaustRetries(n - 1);
      ConnectThenTimeout(Rounds(n - 1), Trace(Initial, Repeat2(Listen, Reconnect, n - 1)));
    }
  }

  /** One round of connecting and timing out returns to the initial state. */
  lemma ConnectThenTimeout(rest: seq<Event>, tr: Trace)
    requires Run(Initial, rest) == Some(tr)
    ensures Run(Initial, [Connected, Timeout] + rest) == Some(Trace(tr.final, [Listen, Reconnect] + tr.actions))
  {
    var streaming := Session(0, true, Streaming);
    assert Step(streaming, Timeout) == Some(Transition(Initial, Reconnect));
    RunPrepend(streaming, Timeout, rest, Transition(Initial, Reconnect), tr);
    RunPrepend(Initial, Connected, [Timeout] + rest, Transition(streaming, Listen),
               Trace(tr.final, [Reconnect] + tr.actions));
    assert [Connected] + ([Timeout] + rest) == [Connected, Timeout] + rest;
    assert [Listen] + ([Reconnect] + tr.actions) == [Listen, Reconnect] + tr.actions;
  }

  /** `n` rounds of connecting and then timing out. */
  function Rounds(n: nat): seq<Event> {
    if n == 0 then [] else [Connected, Timeout] + Rounds(n - 1)
  }

  /** `n` copies of the pair `a, b`. */
  function Repeat2<X>(a: X, b: X, n: nat): seq<X> {
    if n == 0 then [] else [a, b] + Repeat2(a, b, n - 1)
  }

  /** The sentinel is never played, on any trace, and after it the session
      is over. */
  lemma {:induction false} SentinelNeverPlayed(s: Session, es: seq<Event>)
    requires Run(s, es).Some?
    ensures forall k :: 0 <= k < |Run(s, es).value.actions| ==>
              Run(s, es).value.actions[k] != Play(EndOfStream)
    decreases |es|
  {
    if |es| > 0 {
      SentinelNeverPlayed(Step(s, es[0]).value.next, es[1..]);
    }
  }
}
