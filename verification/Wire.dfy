/** What travels over the websocket: binary messages, one per encoded frame,
    and the in-band end-of-stream sentinel `b'END_OF_STREAM'`. The sentinel
    is an ordinary byte string, so nothing stops an encoded frame from
    spelling the same bytes; the model keeps that visible by comparing
    messages with the literal, as both programs do. */
module Wire {
  import opened Pcm

  /** A binary websocket message. */
  type Message = seq<byte>

  /** The bytes of an ASCII string literal. */
  function Ascii(s: string): (b: Message)
    requires forall i :: 0 <= i < |s| ==> s[i] as int < 128
    ensures |b| == |s|
  {
    seq(|s|, i requires 0 <= i < |s| => s[i] as int)
  }

  /** `b'END_OF_STREAM'` */
  const EndOfStream: Message := Ascii("END_OF_STREAM")

  lemma EndOfStreamBytes()
    ensures |EndOfStream| == 13
    ensures EndOfStream == [69, 78, 68, 95, 79, 70, 95, 83, 84, 82, 69, 65, 77]
  {
  }

  /** How many of the messages `ms` equal `m`. */
  function Occurrences(ms: seq<Message>, m: Message): (n: nat)
    ensures n <= |ms|
    ensures n == 0 <==> forall k :: 0 <= k < |ms| ==> ms[k] != m
    decreases |ms|
  {
    if |ms| == 0 then 0
    else (if ms[|ms| - 1] == m then 1 else 0) + Occurrences(ms[..|ms| - 1], m)
  }

  lemma {:induction false} OccurrencesAppend(a: seq<Message>, b: seq<Message>, m: Message)
    ensures Occurrences(a + b, m) == Occurrences(a, m) + Occurrences(b, m)
    decreases |b|
  {
    if |b| > 0 {
      var b' := b[..|b| - 1];
      assert (a + b)[..|a + b| - 1] == a + b';
      OccurrencesAppend(a, b', m);
    } else {
      assert a + b == a;
    }
  }
}
