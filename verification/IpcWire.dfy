/** The bytes under the application's connection: whatever part of the daemon's output has
    arrived, its complete lines are the first messages of the inbound queue. */
module IpcWire {
  import opened Prelude
  import opened LineFraming
  import opened DaemonIpc

  /** How messages are written as lines and read back. */
  datatype Codec = Codec(encode: DaemonIpc.Message -> bytes, decode: bytes -> DaemonIpc.Message)

  /** A serialised message holds no raw newline and parses back. */
  ghost predicate Faithful(codec: Codec) {
    forall m :: NEWLINE !in codec.encode(m) && codec.decode(codec.encode(m)) == m
  }

  function EncodeAll(codec: Codec, ms: seq<DaemonIpc.Message>): (lines: seq<bytes>)
    ensures |lines| == |ms| && forall k :: 0 <= k < |ms| ==> lines[k] == codec.encode(ms[k])
  {
    if ms == [] then [] else [codec.encode(ms[0])] + EncodeAll(codec, ms[1..])
  }

  /* ---- A part of the stream ---- */

  lemma NoNewlineNoLine(s: bytes)
    requires NEWLINE !in s
    ensures Lines(s) == ([], s)
  {
  }

  /** The complete lines of a prefix of some frames are the first of the framed messages. */
  lemma {:induction false} LinesOfPrefix(messages: seq<bytes>, s: bytes)
    requires NewlineFree(messages) && s <= Frame(messages)
    ensures Lines(s).0 <= messages
  {
    if messages == [] {
      NoNewlineNoLine(s);
    } else {
      var m, rest := messages[0], Frame(messages[1..]);
      if |s| <= |m| {
        assert s == (m + [NEWLINE] + rest)[..|s|] == m[..|s|];
        NoNewlineNoLine(s);
      } else {
        var tail := s[|m| + 1..];
        var whole := m + [NEWLINE];
        assert s == (whole + rest)[..|s|] == whole + rest[..|s| - |whole|];
        assert tail == rest[..|s| - |whole|] && tail <= rest;
        LinesOfPrefix(messages[1..], tail);
        LinesOfFrame(m, tail);
        assert messages == [m] + messages[1..];
      }
    }
  }

  /* ---- The reader on bytes ---- */

  /** The reader's book after handling some lines. */
  function HandleLines(b: Book, lines: seq<bytes>, codec: Codec): Book
    decreases |lines|
  {
    if lines == [] then b else HandleLines(Dispatch(b, codec.decode(lines[0])), lines[1..], codec)
  }

  function Deliveries(n: nat): (es: seq<Event>)
    ensures |es| == n && forall k :: 0 <= k < n ==> es[k] == Deliver
  {
    if n == 0 then [] else [Deliver] + Deliveries(n - 1)
  }

  lemma {:induction false} HandlingIsDelivering(s: Sys, lines: seq<bytes>, codec: Codec)
    requires Faithful(codec) && !s.readerDone && lines <= EncodeAll(codec, s.inbound)
    ensures var es := Deliveries(|lines|);
      CanRun(s, es) && Run(s, es) == s.(book := HandleLines(s.book, lines, codec), inbound := s.inbound[|lines|..])
    decreases |lines|
  {
    if lines == [] {
      assert s.inbound[0..] == s.inbound;
    } else {
      var all := EncodeAll(codec, s.inbound);
      assert lines[0] == all[0] && codec.decode(lines[0]) == s.inbound[0];
      assert all[1..] == EncodeAll(codec, s.inbound[1..]);
      assert lines[1..] == all[1..|lines|] && all[1..|lines|] <= all[1..];
      var next := Step(s, Deliver);
      HandlingIsDelivering(next, lines[1..], codec);
      assert Deliveries(|lines|)[1..] == Deliveries(|lines| - 1);
      assert next.inbound[|lines| - 1..] == s.inbound[|lines|..];
    }
  }

  /** Whatever part of the daemon's bytes has arrived, handling its complete lines is a run of
      deliveries of the first messages sent. */
  lemma BytesAreDeliveries(s: Sys, received: bytes, codec: Codec)
    requires Faithful(codec) && !s.readerDone && received <= Frame(EncodeAll(codec, s.inbound))
    ensures var lines := Lines(received).0;
      var es := Deliveries(|lines|);
      && |lines| <= |s.inbound|
      && CanRun(s, es)
      && Run(s, es) == s.(book := HandleLines(s.book, lines, codec), inbound := s.inbound[|lines|..])
  {
    LinesOfPrefix(EncodeAll(codec, s.inbound), received);
    HandlingIsDelivering(s, Lines(received).0, codec);
  }
}
