/** Newline framing of JSON-RPC messages over a byte stream that arrives in
    arbitrary pieces. */
module LineFraming {
  import opened Prelude

  const NEWLINE: byte := 10

  /** Position of the first newline, or the length when there is none. */
  function LineEnd(s: bytes): (n: nat)
    ensures n <= |s|
    ensures NEWLINE !in s[..n]
    ensures n < |s| ==> s[n] == NEWLINE
  {
    if s == [] || s[0] == NEWLINE then 0
    else
      var n := 1 + LineEnd(s[1..]);
      assert s[..n] == [s[0]] + s[1..][..n - 1];
      n
  }

  /** The complete lines of a stream and what follows the last newline. */
  function Lines(s: bytes): (seq<bytes>, bytes)
    decreases |s|
  {
    var n := LineEnd(s);
    if n == |s| then ([], s)
    else
      var (lines, rest) := Lines(s[n + 1..]);
      ([s[..n]] + lines, rest)
  }

  /** What one read of the pipe or socket yields: a block, empty at end of file, or a failure
      such as a timeout, after which the caller may read on. */
  datatype Read = Data(block: bytes) | Fault

  predicate AtEnd(input: seq<Read>) {
    input == [] || input[0] == Data([])
  }

  /** Everything that arrives, whatever fails in between. */
  function Stream(input: seq<Read>): bytes {
    if AtEnd(input) then [] else Block(input[0]) + Stream(input[1..])
  }

  function Block(read: Read): bytes {
    if read.Fault? then [] else read.block
  }

  function Blocks(input: seq<Read>): seq<bytes> {
    if input == [] then [] else [Block(input[0])] + Blocks(input[1..])
  }

  /** Up to the end of file, the stream is all the blocks one after the other. */
  lemma {:induction false} StreamIsAllBlocks(input: seq<Read>, rest: seq<Read>)
    requires forall k :: 0 <= k < |input| ==> input[k].Fault? || input[k].block != []
    ensures Stream(input + [Data([])] + rest) == Concat(Blocks(input)) && Stream(input) == Concat(Blocks(input))
  {
    var all := input + [Data([])] + rest;
    if input != [] {
      assert all[1..] == input[1..] + [Data([])] + rest && all[0] == input[0];
      StreamIsAllBlocks(input[1..], rest);
      assert ([Block(input[0])] + Blocks(input[1..]))[1..] == Blocks(input[1..]);
    }
  }

  /** What arrives before the first failure, and the reads from there on. */
  function Burst(input: seq<Read>): (bytes, seq<Read>) {
    if AtEnd(input) || input[0].Fault? then ([], input)
    else
      var (more, rest) := Burst(input[1..]);
      (input[0].block + more, rest)
  }

  datatype ReadError = Disconnected | ReadFailed | WouldBlock

  /** The extensions' blocking client: a connection and the bytes not yet consumed.
      `pending` holds the reads still to come; a run that needs more than that is
      cut off as `WouldBlock`. */
  class IpcClient {
    var buf: bytes
    var pending: seq<Read>

    constructor (pending: seq<Read>)
      ensures buf == [] && this.pending == pending
    {
      buf, this.pending := [], pending;
    }

    /** All bytes the client can still see. */
    function Ahead(): bytes
      reads this
    {
      buf + Stream(pending)
    }

    /** A line, if the buffer and the next burst hold a newline; otherwise all of that stays in
        the buffer and a failed read is used up.  Nothing is ever lost. */
    method Readline() returns (r: Result<bytes, ReadError>)
      modifies this
      ensures r.Ok? <==> NEWLINE in old(buf) + Burst(old(pending)).0
      ensures r.Ok? ==> NEWLINE !in r.value && old(Ahead()) == r.value + [NEWLINE] + Ahead()
      ensures r.Err? ==> Ahead() == old(Ahead()) && buf == old(buf) + Burst(old(pending)).0
      ensures r.Err? ==> (r.error == ReadFailed <==> !AtEnd(Burst(old(pending)).1))
      ensures r.Err? && r.error != ReadFailed ==> AtEnd(pending)
      ensures |pending| <= |old(pending)| && (r == Err(ReadFailed) ==> |pending| < |old(pending)|)
    {
      ghost var have := buf + Burst(pending).0;
      while true
        invariant Ahead() == old(Ahead()) && have == buf + Burst(pending).0
        invariant Burst(pending).1 == Burst(old(pending)).1
        invariant |pending| <= |old(pending)|
        decreases |pending|
      {
        var pos := LineEnd(buf);
        if pos < |buf| {
          assert buf[pos] in have;
          var line := buf[..pos];
          SplitAtNewline(buf, pos, Stream(pending));
          buf := buf[pos + 1..];
          return Ok(line);
        }
        assert buf[..pos] == buf;
        if pending == [] {
          return Err(WouldBlock);
        }
        var read := pending[0];
        if read.Fault? {
          assert Stream(pending) == [] + Stream(pending[1..]) == Stream(pending[1..]);
          pending := pending[1..];
          return Err(ReadFailed);
        }
        if read.block == [] {
          return Err(Disconnected);
        }
        Regroup(buf, read.block, Stream(pending[1..]));
        Regroup(buf, read.block, Burst(pending[1..]).0);
        buf, pending := buf + read.block, pending[1..];
      }
    }

    /** Call `Readline` until nothing more can come, reading on after failures: the newline
        split of everything received. */
    method ReadAll() returns (lines: seq<bytes>)
      modifies this
      ensures lines == Lines(old(Ahead())).0
      ensures buf == Lines(old(Ahead())).1
    {
      lines := [];
      ghost var all := Ahead();
      while true
        invariant lines + Lines(Ahead()).0 == Lines(all).0
        invariant Lines(Ahead()).1 == Lines(all).1
        decreases |Ahead()| + |pending|
      {
        var r := Readline();
        if r.Ok? {
          LinesOfFrame(r.value, Ahead());
          Regroup(lines, [r.value], Lines(Ahead()).0);
          lines := lines + [r.value];
        } else if r.error != ReadFailed {
          assert Ahead() == buf + [] == buf && NEWLINE !in buf;
          assert lines + [] == lines;
          return;
        }
      }
    }
  }

  lemma SplitAtNewline(s: bytes, n: nat, rest: bytes)
    requires n < |s| && s[n] == NEWLINE
    ensures s + rest == s[..n] + [NEWLINE] + (s[n + 1..] + rest)
  {
    assert s == s[..n] + [NEWLINE] + s[n + 1..];
  }

  /** How the sender frames a list of messages. */
  function Frame(messages: seq<bytes>): bytes {
    if messages == [] then [] else messages[0] + [NEWLINE] + Frame(messages[1..])
  }

  lemma {:induction false} LineEndOfFrame(m: bytes, rest: bytes)
    requires NEWLINE !in m
    ensures LineEnd(m + [NEWLINE] + rest) == |m|
  {
    if m != [] {
      assert (m + [NEWLINE] + rest)[1..] == m[1..] + [NEWLINE] + rest;
      LineEndOfFrame(m[1..], rest);
    }
  }

  lemma LinesOfFrame(m: bytes, rest: bytes)
    requires NEWLINE !in m
    ensures Lines(m + [NEWLINE] + rest) == ([m] + Lines(rest).0, Lines(rest).1)
  {
    var s := m + [NEWLINE] + rest;
    LineEndOfFrame(m, rest);
    assert s[|m| + 1..] == rest && s[..|m|] == m;
  }

  predicate NewlineFree(messages: seq<bytes>) {
    forall k :: 0 <= k < |messages| ==> NEWLINE !in messages[k]
  }

  /** Newline-free messages come back unchanged, with any partial tail left over. */
  lemma {:induction false} FramingRoundTrip(messages: seq<bytes>, tail: bytes)
    requires NewlineFree(messages) && NEWLINE !in tail
    ensures Lines(Frame(messages) + tail) == (messages, tail)
  {
    if messages == [] {
      assert Frame(messages) + tail == tail;
    } else {
      var m, others := messages[0], Frame(messages[1..]);
      Regroup(m + [NEWLINE], others, tail);
      LinesOfFrame(m, others + tail);
      FramingRoundTrip(messages[1..], tail);
      assert [m] + messages[1..] == messages;
    }
  }

  /** However the framed messages are cut into reads, and whichever reads fail in between, the
      client receives them. */
  method ReceiveFramed(messages: seq<bytes>, input: seq<Read>) returns (lines: seq<bytes>)
    requires NewlineFree(messages)
    requires Stream(input) == Frame(messages)
    ensures lines == messages
  {
    var client := new IpcClient(input);
    FramingRoundTrip(messages, []);
    assert Frame(messages) + [] == Frame(messages) == client.Ahead();
    lines := client.ReadAll();
  }
}
