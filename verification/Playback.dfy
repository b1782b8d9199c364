/** The jitter buffer together with the thread that drains it
    (`AudioPlayer._play_loop` and `wait_for_empty` in client/opusclinte.py).
    The receive side pushes frames as they arrive; each iteration of the play
    loop pops the oldest frame and writes it to the device, or idles when
    the buffer is empty. The two threads are modelled as one interleaving of
    atomic steps. The device write is a foreign call; a failing write is
    logged and skipped in the source, so a popped frame counts as played
    either way. */
module Playback {
  import opened JitterBuffer

  /** One atomic step: a frame arrives (`play_frame`) or the play loop runs
      once. */
  datatype Op = Arrive | Tick

  /** The buffer, the frames handed to the device so far, how many frames
      have arrived and how many of them were evicted on overflow. */
  datatype Player<T> = Player(buffer: seq<T>, played: seq<T>, arrived: nat, evicted: nat)

  function Idle<T>(): Player<T> {
    Player([], [], 0, 0)
  }

  /** Number of arrivals in `ops`. */
  function Arrivals(ops: seq<Op>): nat
    decreases |ops|
  {
    if |ops| == 0 then 0 else (if ops[0].Arrive? then 1 else 0) + Arrivals(ops[1..])
  }

  /** One step; the `k`-th arrival pushes `frames[k]`. */
  function Step<T>(p: Player<T>, op: Op, frames: seq<T>): (q: Player<T>)
    requires op.Arrive? ==> p.arrived < |frames|
    ensures Bounded(p.buffer) ==> Bounded(q.buffer)
    // an arrival is either kept in the buffer or accounted as an eviction
    ensures op.Arrive? ==> q.arrived == p.arrived + 1 && q.played == p.played
    ensures op.Arrive? ==> |q.buffer| + q.evicted == |p.buffer| + p.evicted + 1
    ensures op.Arrive? ==> |q.buffer| > 0 && q.buffer[|q.buffer| - 1] == frames[p.arrived]
    // the arrival goes through the drop-oldest push, and a frame counts as evicted
    // only when the buffer was already full
    ensures op.Arrive? ==> q.buffer == Push(p.buffer, frames[p.arrived])
    ensures op.Arrive? ==> q.evicted == p.evicted + (if |p.buffer| < MaxBufferSize then 0 else 1)
    // the play loop moves the oldest frame to the device and changes nothing else
    ensures op.Tick? ==> q.played + q.buffer == p.played + p.buffer
    ensures op.Tick? ==> q.arrived == p.arrived && q.evicted == p.evicted
    ensures op.Tick? && |p.buffer| > 0 ==> |q.buffer| == |p.buffer| - 1
    ensures op.Tick? && |p.buffer| == 0 ==> q == p
  {
    match op
    case Arrive =>
      var dropped := if |p.buffer| < MaxBufferSize then 0 else 1;
      Player(Push(p.buffer, frames[p.arrived]), p.played, p.arrived + 1, p.evicted + dropped)
    case Tick =>
      if |p.buffer| == 0 then p
      else
        var (frame, rest) := Pop(p.buffer);
        assert p.played + p.buffer == p.played + [frame] + rest;
        Player(rest, p.played + [frame], p.arrived, p.evicted)
  }

  /** Running a whole interleaving. */
  function Run<T>(p: Player<T>, ops: seq<Op>, frames: seq<T>): Player<T>
    requires p.arrived + Arrivals(ops) <= |frames|
    decreases |ops|
  {
    if |ops| == 0 then p else Run(Step(p, ops[0], frames), ops[1..], frames)
  }

  // ---- Order, proved on arrival numbers ----

  /** `[0, 1, ..., n - 1]`: frames labelled by their arrival number. */
  function Range(n: nat): (r: seq<nat>)
    ensures |r| == n && forall i :: 0 <= i < n ==> r[i] == i
  {
    seq(n, i requires 0 <= i < n => i)
  }

  predicate Increasing(s: seq<nat>) {
    forall i, j :: 0 <= i < j < |s| ==> s[i] < s[j]
  }

  /** Every element of `s` is below `bound`. */
  predicate Below(s: seq<nat>, bound: nat) {
    forall k :: 0 <= k < |s| ==> s[k] < bound
  }

  /** What a player running on arrival numbers keeps true: everything played
      or still buffered appears in increasing arrival order, nothing is
      invented, and nothing is lost except by eviction. */
  predicate Ordered(p: Player<nat>) {
    var seen := p.played + p.buffer;
    && Increasing(seen)
    && Below(seen, p.arrived)
    && |seen| + p.evicted == p.arrived
    && (p.evicted == 0 ==> seen == Range(p.arrived))
    && Bounded(p.buffer)
  }

  /** The newest arrival goes after everything seen so far. */
  lemma AppendArrival(seen: seq<nat>, a: nat)
    requires Increasing(seen) && Below(seen, a)
    ensures Increasing(seen + [a]) && Below(seen + [a], a + 1)
    ensures seen == Range(a) ==> seen + [a] == Range(a + 1)
  {
  }

  /** Position in the old contents of the `k`-th survivor after the element
      at `gap` was removed. */
  function Skip(k: nat, gap: nat): nat {
    if k < gap then k else k + 1
  }

  /** Removing one element keeps a sequence increasing and bounded. */
  lemma DropKeepsIncreasing(seen: seq<nat>, gap: nat, bound: nat)
    requires Increasing(seen) && Below(seen, bound) && gap < |seen|
    ensures Increasing(seen[..gap] + seen[gap + 1..])
    ensures Below(seen[..gap] + seen[gap + 1..], bound)
  {
    var d := seen[..gap] + seen[gap + 1..];
    forall k | 0 <= k < |d|
      ensures d[k] == seen[Skip(k, gap)]
    {
    }
    forall i, j | 0 <= i < j < |d|
      ensures d[i] < d[j]
    {
      assert Skip(i, gap) < Skip(j, gap);
    }
  }

  /** Evicting the oldest buffered frame and appending the newest arrival
      keeps the played-then-buffered frames in arrival order. */
  lemma EvictOldest(played: seq<nat>, buffer: seq<nat>, a: nat)
    requires |buffer| > 0
    requires Increasing(played + buffer) && Below(played + buffer, a)
    ensures Increasing(played + buffer[1..] + [a]) && Below(played + buffer[1..] + [a], a + 1)
  {
    var seen := played + buffer;
    DropKeepsIncreasing(seen, |played|, a);
    assert seen[..|played|] + seen[|played| + 1..] == played + buffer[1..];
    AppendArrival(played + buffer[1..], a);
  }

  lemma ArriveKeepsOrdered(p: Player<nat>, n: nat)
    requires Ordered(p) && p.arrived < n
    ensures Ordered(Step(p, Arrive, Range(n)))
  {
    var a := p.arrived;
    assert Range(n)[a] == a;
    if |p.buffer| < MaxBufferSize {
      var q := Player(p.buffer + [a], p.played, a + 1, p.evicted);
      assert Step(p, Arrive, Range(n)) == q;
      assert q.played + q.buffer == (p.played + p.buffer) + [a];
      AppendArrival(p.played + p.buffer, a);
    } else {
      var q := Player(p.buffer[1..] + [a], p.played, a + 1, p.evicted + 1);
      assert Step(p, Arrive, Range(n)) == q;
      assert q.played + q.buffer == p.played + p.buffer[1..] + [a];
      EvictOldest(p.played, p.buffer, a);
    }
  }

  lemma StepKeepsOrdered(p: Player<nat>, op: Op, n: nat)
    requires Ordered(p)
    requires op.Arrive? ==> p.arrived < n
    ensures Ordered(Step(p, op, Range(n)))
  {
    if op.Arrive? {
      ArriveKeepsOrdered(p, n);
    }
  }

  lemma {:induction false} RunKeepsOrdered(p: Player<nat>, ops: seq<Op>, n: nat)
    requires Ordered(p)
    requires p.arrived + Arrivals(ops) <= n
    ensures Ordered(Run(p, ops, Range(n)))
    ensures Run(p, ops, Range(n)).arrived == p.arrived + Arrivals(ops)
    decreases |ops|
  {
    if |ops| > 0 {
      StepKeepsOrdered(p, ops[0], n);
      RunKeepsOrdered(Step(p, ops[0], Range(n)), ops[1..], n);
    }
  }

  // ---- From arrival numbers to frames ----

  /** The frames named by the arrival numbers `idx`. */
  function Select<T>(frames: seq<T>, idx: seq<nat>): (r: seq<T>)
    requires forall k :: 0 <= k < |idx| ==> idx[k] < |frames|
    ensures |r| == |idx| && forall k :: 0 <= k < |idx| ==> r[k] == frames[idx[k]]
  {
    seq(|idx|, k requires 0 <= k < |idx| => frames[idx[k]])
  }

  /** Every arrival number in `p` names one of `frames`. */
  predicate Labels<T>(p: Player<nat>, frames: seq<T>) {
    Below(p.buffer, |frames|) && Below(p.played, |frames|)
  }

  /** The frames a player on arrival numbers stands for. */
  function Relabel<T>(p: Player<nat>, frames: seq<T>): Player<T>
    requires Labels(p, frames)
  {
    Player(Select(frames, p.buffer), Select(frames, p.played), p.arrived, p.evicted)
  }

  lemma PushSelect<T>(frames: seq<T>, buf: seq<nat>, x: nat)
    requires forall k :: 0 <= k < |buf| ==> buf[k] < |frames|
    requires x < |frames|
    ensures forall k :: 0 <= k < |Push(buf, x)| ==> Push(buf, x)[k] < |frames|
    ensures Select(frames, Push(buf, x)) == Push(Select(frames, buf), frames[x])
  {
    var b := Push(buf, x);
    var l := Push(Select(frames, buf), frames[x]);
    assert |b| == |l|;
    if |buf| < MaxBufferSize {
      assert b == buf + [x] && l == Select(frames, buf) + [frames[x]];
    } else {
      assert b == buf[1..] + [x] && l == Select(frames, buf)[1..] + [frames[x]];
    }
  }

  lemma ArriveRelabel<T>(p: Player<nat>, frames: seq<T>)
    requires Labels(p, frames) && p.arrived < |frames|
    ensures Labels(Step(p, Arrive, Range(|frames|)), frames)
    ensures Step(Relabel(p, frames), Arrive, frames) == Relabel(Step(p, Arrive, Range(|frames|)), frames)
  {
    var dropped := if |p.buffer| < MaxBufferSize then 0 else 1;
    var r := Relabel(p, frames);
    assert Range(|frames|)[p.arrived] == p.arrived;
    var q := Player(Push(p.buffer, p.arrived), p.played, p.arrived + 1, p.evicted + dropped);
    assert Step(p, Arrive, Range(|frames|)) == q;
    PushSelect(frames, p.buffer, p.arrived);
    assert Step(r, Arrive, frames) == Player(Push(r.buffer, frames[p.arrived]), r.played, p.arrived + 1, p.evicted + dropped);
  }

  lemma TickRelabel<T>(p: Player<nat>, frames: seq<T>)
    requires Labels(p, frames)
    ensures Labels(Step(p, Tick, Range(|frames|)), frames)
    ensures Step(Relabel(p, frames), Tick, frames) == Relabel(Step(p, Tick, Range(|frames|)), frames)
  {
    if |p.buffer| > 0 {
      var r := Relabel(p, frames);
      var q := Player(p.buffer[1..], p.played + [p.buffer[0]], p.arrived, p.evicted);
      assert Step(p, Tick, Range(|frames|)) == q;
      assert Select(frames, q.buffer) == r.buffer[1..];
      assert Select(frames, q.played) == r.played + [r.buffer[0]];
    }
  }

  lemma StepRelabel<T>(p: Player<nat>, op: Op, frames: seq<T>)
    requires Labels(p, frames)
    requires op.Arrive? ==> p.arrived < |frames|
    ensures Labels(Step(p, op, Range(|frames|)), frames)
    ensures Step(Relabel(p, frames), op, frames) == Relabel(Step(p, op, Range(|frames|)), frames)
  {
    if op.Arrive? {
      ArriveRelabel(p, frames);
    } else {
      TickRelabel(p, frames);
    }
  }

  lemma {:induction false} RunRelabel<T>(p: Player<nat>, ops: seq<Op>, frames: seq<T>)
    requires Labels(p, frames)
    requires p.arrived + Arrivals(ops) <= |frames|
    ensures Labels(Run(p, ops, Range(|frames|)), frames)
    ensures Run(Relabel(p, frames), ops, frames) == Relabel(Run(p, ops, Range(|frames|)), frames)
    decreases |ops|
  {
    if |ops| > 0 {
      StepRelabel(p, ops[0], frames);
      RunRelabel(Step(p, ops[0], Range(|frames|)), ops[1..], frames);
    }
  }

  /** Frames reach the device in the order they arrived, except for the ones
      evicted on overflow: the frames played so far followed by those still
      buffered are the arrivals picked at strictly increasing arrival
      numbers, and when nothing was evicted they are exactly the arrivals.
      The buffer never exceeds its capacity. */
  lemma PlaybackOrder<T>(ops: seq<Op>, frames: seq<T>)
    requires Arrivals(ops) <= |frames|
    ensures var p := Run(Idle(), ops, frames);
            var stamps := Run(Idle(), ops, Range(|frames|));
            && Bounded(p.buffer)
            && p.arrived == Arrivals(ops)
            && Increasing(stamps.played + stamps.buffer)
            && Labels(stamps, frames)
            && p.played + p.buffer == Select(frames, stamps.played + stamps.buffer)
            && |p.played| + |p.buffer| + p.evicted == Arrivals(ops)
            && (p.evicted == 0 ==> p.played + p.buffer == frames[..Arrivals(ops)])
  {
    var n := |frames|;
    var start: Player<nat> := Idle();
    assert Ordered(start) by {
      assert Range(0) == [];
    }
    RunKeepsOrdered(start, ops, n);
    RunRelabel(start, ops, frames);
    assert Relabel(start, frames) == Idle();
    var stamps := Run(start, ops, Range(n));
    var p := Run(Idle(), ops, frames);
    assert p == Relabel(stamps, frames);
    SelectConcat(frames, stamps.played, stamps.buffer);
    if p.evicted == 0 {
      SelectRange(frames, stamps.arrived);
    }
  }

  lemma SelectConcat<T>(frames: seq<T>, a: seq<nat>, b: seq<nat>)
    requires Below(a, |frames|) && Below(b, |frames|)
    ensures Below(a + b, |frames|)
    ensures Select(frames, a) + Select(frames, b) == Select(frames, a + b)
  {
  }

  lemma SelectRange<T>(frames: seq<T>, m: nat)
    requires m <= |frames|
    ensures Below(Range(m), |frames|)
    ensures Select(frames, Range(m)) == frames[..m]
  {
  }

  /** `wait_for_empty` racing the play loop: the loop keeps popping until
      the buffer is empty, and every buffered frame is played, in order. */
  method Drain<T>(p: Player<T>) returns (q: Player<T>)
    ensures q.buffer == []
    ensures q.played == p.played + p.buffer
    ensures q.arrived == p.arrived && q.evicted == p.evicted
  {
    q := p;
    while |q.buffer| > 0
      invariant q.played + q.buffer == p.played + p.buffer
      invariant q.arrived == p.arrived && q.evicted == p.evicted
      decreases |q.buffer|
    {
      q := Step(q, Tick, []);
    }
    assert q.played + [] == q.played;
  }
}
