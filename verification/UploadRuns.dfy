/** How uploads end, how long they take and which ranges they send. */
module UploadRuns {
  import opened Prelude
  import opened HttpRetry
  import opened RangeHeader
  import opened ResumableUpload
  import Chunks

  /* ---- When an upload reports success ---- */

  /** A chunk answered by a readable 200 or 201. */
  predicate Confirms(x: Exchange) {
    x.req.PutChunk? && x.reply.Got? && IsReadable(x.reply.status, x.reply.payload)
  }

  predicate IsReadable(status: nat, p: Payload) {
    (status == 200 || status == 201) && p.bodyOk
  }

  predicate Confirmed(srv: Server) {
    exists k :: 0 <= k < |srv.log| && Confirms(srv.log[k])
  }

  /** After one more exchange. */
  lemma ConfirmedSnoc(srv: Server, held: bytes, x: Exchange)
    ensures Confirmed(Server(held, srv.log + [x])) <==> Confirmed(srv) || Confirms(x)
  {
    var srv' := Server(held, srv.log + [x]);
    assert srv'.log[|srv.log|] == x;
    if k :| 0 <= k < |srv.log| && Confirms(srv.log[k]) {
      assert srv'.log[k] == srv.log[k];
    }
  }

  predicate PutRecorded(srv: Server, r: Return<ChunkResult>) {
    Confirmed(r.srv) <==> Confirmed(srv) || r.result.Complete?
  }

  predicate AskRecorded(srv: Server, r: Return<QueryResult>) {
    Confirmed(r.srv) <==> Confirmed(srv)
  }

  lemma HttpPutIsRecorded(net: Net, content: bytes, srv: Server, token: string, script: seq<Choice>, offset: nat)
    ensures PutRecorded(srv, HttpCalls(net, content).put(srv, token, script, offset))
  {
    if offset < |content| {
      var end := LastOf(content, offset);
      var req := PutChunk(offset, content[offset..end + 1], |content|);
      var gave := (s: Server) => Confirmed(s);
      var good := (status: nat, p: Payload) => IsReadable(status, p);
      forall s: Server, tok: string, c: Choice ensures Records(AlsoResume, s, PeerFor(req)(s, tok, c), gave, good) {
        var (s', reply) := Serve(req, s, c);
        ConfirmedSnoc(s, s'.held, Exchange(req, reply));
      }
      MachineRecords(AlsoResume, PeerFor(req), net, script, Start(srv, token), gave, good);
    }
  }

  lemma HttpAskIsRecorded(net: Net, content: bytes, srv: Server, token: string, script: seq<Choice>)
    ensures AskRecorded(srv, HttpCalls(net, content).ask(srv, token, script))
  {
    var req := Query(|content|);
    var gave := (s: Server) => Confirmed(s);
    var good := (status: nat, p: Payload) => false;
    forall s: Server, tok: string, c: Choice ensures Records(AlsoResume, s, PeerFor(req)(s, tok, c), gave, good) {
      var (s', reply) := Serve(req, s, c);
      ConfirmedSnoc(s, s'.held, Exchange(req, reply));
    }
    MachineRecords(AlsoResume, PeerFor(req), net, script, Start(srv, token), gave, good);
  }

  ghost predicate Recorded(calls: Calls) {
    && (forall srv, token, script, offset: nat :: PutRecorded(srv, calls.put(srv, token, script, offset)))
    && (forall srv, token, script :: AskRecorded(srv, calls.ask(srv, token, script)))
  }

  lemma HttpCallsAreRecorded(net: Net, content: bytes)
    ensures Recorded(HttpCalls(net, content))
  {
    var calls := HttpCalls(net, content);
    forall srv, token, script, offset: nat ensures PutRecorded(srv, calls.put(srv, token, script, offset)) {
      HttpPutIsRecorded(net, content, srv, token, script, offset);
    }
    forall srv, token, script ensures AskRecorded(srv, calls.ask(srv, token, script)) {
      HttpAskIsRecorded(net, content, srv, token, script);
    }
  }

  lemma TurnRecords(calls: Calls, content: bytes, at: Position, script: seq<Choice>)
    requires Timed(calls) && Recorded(calls) && at.offset < |content|
    ensures var turn := TakeTurn(calls, content, at, script);
      if turn.On? then Confirmed(turn.next.srv) <==> Confirmed(at.srv)
      else Confirmed(turn.upload.at.srv) <==> Confirmed(at.srv) || turn.upload.outcome.Uploaded?
  {
    var put := calls.put(at.srv, at.token, script, at.offset);
    assert PutRecorded(at.srv, put) && TimedPut(script, put);
    if put.result.ChunkError? {
      assert AskRecorded(put.srv, calls.ask(put.srv, put.token, script[put.sends..]));
    }
  }

  lemma {:induction false} RunRecords(calls: Calls, content: bytes, at: Position, script: seq<Choice>)
    requires Timed(calls) && Recorded(calls)
    ensures var u := UploadFrom(calls, content, at, script);
      Confirmed(u.at.srv) <==> Confirmed(at.srv) || u.outcome.Uploaded?
    decreases |script|
  {
    if at.offset < |content| {
      TurnRecords(calls, content, at, script);
      var turn := TakeTurn(calls, content, at, script);
      if turn.On? {
        RunRecords(calls, content, turn.next, turn.rest);
      }
    }
  }

  /** An upload reports Ok if and only if some chunk of it was answered by a readable 200 or
      201; so a run that has left the whole file on the server reports an error exactly when
      no such answer arrived. */
  lemma UploadedIffConfirmed(net: Net, content: bytes, token: string, script: seq<Choice>)
    requires |content| < TWO_64
    ensures Timed(HttpCalls(net, content))
    ensures var u := UploadFrom(HttpCalls(net, content), content, Begin(EMPTY, token), script);
      && (u.outcome.Uploaded? <==> Confirmed(u.at.srv))
      && (Confirmed(u.at.srv) ==> u.at.srv.held == content)
  {
    UploadIsSafe(net, content, token, script);
    HttpCallsAreRecorded(net, content);
    RunRecords(HttpCalls(net, content), content, Begin(EMPTY, token), script);
  }

  /** One byte, kept, but the reply is lost.  If the query then says "complete", or fails,
      the file is on the server and the client reports an error. */
  lemma CompleteYetNotConfirmed(b: byte, token: string, last: Answer)
    requires last == Finish(200, true) || last == Refuse(404)
    ensures Timed(HttpCalls(None, [b]))
    ensures var u := UploadFrom(HttpCalls(None, [b]), [b], Begin(EMPTY, token), [Choice(1, Drop), Choice(0, last)]);
      u.at.srv.held == [b] && u.outcome == if last.Finish? then NotConfirmed else Failed
  {
    var content, script := [b], [Choice(1, Drop), Choice(0, last)];
    HttpCallsAreHonest(None, content);
    var calls := HttpCalls(None, content);
    var (srv, reply) := Serve(PutChunk(0, [b], 1), EMPTY, script[0]);
    assert srv.held == [b] && reply == Lost by {
      assert [] + [b][..1] == [b];
    }
    assert content[0..1] == [b];
    var put := calls.put(EMPTY, token, script, 0);
    assert put == Return(srv, token, 1, ChunkError);
    var rest := script[1..];
    assert rest[0] == script[1];
    var ask := calls.ask(srv, token, rest);
    assert ask.srv.held == [b] && ask.sends == 1;
    assert ask.result == if last.Finish? then Received(1) else QueryError;
  }

  /* ---- How long an upload takes ---- */

  function Requests(rounds: seq<Round>): nat {
    if rounds == [] then 0 else Requests(rounds[..|rounds| - 1]) + rounds[|rounds| - 1].sends
  }

  lemma RequestsSnoc(rounds: seq<Round>, r: Round)
    ensures Requests(rounds + [r]) == Requests(rounds) + r.sends
  {
    assert (rounds + [r])[..|rounds|] == rounds;
  }

  lemma {:induction false} RequestsAreTenPerRound(rounds: seq<Round>, content: bytes)
    requires forall k :: 0 <= k < |rounds| ==> RoundFits(rounds[k], content)
    ensures Requests(rounds) <= 10 * |rounds|
  {
    if rounds != [] {
      RequestsAreTenPerRound(rounds[..|rounds| - 1], content);
    }
  }

  lemma TurnCounts(calls: Calls, content: bytes, at: Position, script: seq<Choice>)
    requires Timed(calls) && at.offset < |content|
    ensures var turn := TakeTurn(calls, content, at, script);
      if turn.On? then Requests(turn.next.rounds) + |turn.rest| == Requests(at.rounds) + |script|
      else turn.upload.outcome.Running? ==> Requests(turn.upload.at.rounds) == Requests(at.rounds) + |script|
  {
    var put := calls.put(at.srv, at.token, script, at.offset);
    assert TimedPut(script, put);
    var end, rest := LastOf(content, at.offset), script[put.sends..];
    assert |rest| == |script| - put.sends;
    if put.result.ChunkError? {
      var ask := calls.ask(put.srv, put.token, rest);
      assert TimedAsk(rest, ask);
      assert |rest[ask.sends..]| == |rest| - ask.sends;
      RequestsSnoc(at.rounds, Round(at.offset, end, put.sends + ask.sends));
    } else {
      RequestsSnoc(at.rounds, Round(at.offset, end, put.sends));
    }
  }

  /** A run that is still going has used its whole script. */
  lemma {:induction false} RunningUsesTheScript(calls: Calls, content: bytes, at: Position, script: seq<Choice>)
    requires Timed(calls) && UploadFrom(calls, content, at, script).outcome.Running?
    ensures Requests(UploadFrom(calls, content, at, script).at.rounds) == Requests(at.rounds) + |script|
    decreases |script|
  {
    TurnCounts(calls, content, at, script);
    var turn := TakeTurn(calls, content, at, script);
    if turn.On? {
      RunningUsesTheScript(calls, content, turn.next, turn.rest);
    }
  }

  /** Each round starts at least `g` bytes after the one before. */
  predicate Gains(rounds: seq<Round>, g: nat) {
    forall k :: 0 < k < |rounds| ==> rounds[k - 1].start + g <= rounds[k].start
  }

  lemma {:induction false} GainsAddUp(rounds: seq<Round>, g: nat, k: nat)
    requires Gains(rounds, g) && k < |rounds|
    ensures k * g <= rounds[k].start
  {
    if k > 0 {
      GainsAddUp(rounds, g, k - 1);
      assert k * g == (k - 1) * g + g;
    }
  }

  /** If every round gains at least `g` bytes, an upload takes at most
      ceil(length / g) rounds of ten requests, and then it has ended. */
  lemma UploadEndsInTime(net: Net, content: bytes, token: string, script: seq<Choice>, g: nat)
    requires g > 0 && |content| < TWO_64
    ensures Timed(HttpCalls(net, content))
    ensures var u := UploadFrom(HttpCalls(net, content), content, Begin(EMPTY, token), script);
      Gains(u.at.rounds, g) ==>
        && |u.at.rounds| <= Chunks.ChunkCount(|content|, g)
        && Requests(u.at.rounds) <= 10 * Chunks.ChunkCount(|content|, g)
        && (|script| > 10 * Chunks.ChunkCount(|content|, g) ==> !u.outcome.Running?)
  {
    UploadIsSafe(net, content, token, script);
    var calls, at := HttpCalls(net, content), Begin(EMPTY, token);
    var u := UploadFrom(calls, content, at, script);
    var rounds := u.at.rounds;
    RequestsAreTenPerRound(rounds, content);
    if Gains(rounds, g) && rounds != [] {
      GainsAddUp(rounds, g, |rounds| - 1);
      Chunks.CountIsExact(|content|, g, |rounds| - 1);
    }
    if u.outcome.Running? {
      RunningUsesTheScript(calls, content, at, script);
    }
  }

  /* ---- Whole chunks ---- */

  /** The server kept each chunk whole: the next one starts where it ended. */
  predicate WholeChunks(rounds: seq<Round>) {
    && (rounds != [] ==> rounds[0].start == 0)
    && forall k :: 0 < k < |rounds| ==> rounds[k].start == rounds[k - 1].end + 1
  }

  lemma {:induction false} WholeChunksAreChunkRanges(rounds: seq<Round>, content: bytes, k: nat)
    requires WholeChunks(rounds) && k < |rounds|
    requires forall i :: 0 <= i < |rounds| ==> RoundFits(rounds[i], content)
    ensures Chunks.ChunkRange(k, |content|, CHUNK_SIZE) == Some((rounds[k].start, rounds[k].end))
  {
    if k > 0 {
      WholeChunksAreChunkRanges(rounds, content, k - 1);
      assert k * CHUNK_SIZE == (k - 1) * CHUNK_SIZE + CHUNK_SIZE;
    }
  }

  lemma {:induction false} SentIsLastEnd(rounds: seq<Round>, content: bytes)
    requires rounds != [] && WholeChunks(rounds)
    requires forall i :: 0 <= i < |rounds| ==> RoundFits(rounds[i], content)
    ensures Sent(rounds) == rounds[|rounds| - 1].end + 1
  {
    if |rounds| > 1 {
      SentIsLastEnd(rounds[..|rounds| - 1], content);
    }
  }

  /** The rounds are the chunk ranges of the file, in order. */
  predicate AreChunkRanges(rounds: seq<Round>, content: bytes) {
    && |rounds| == Chunks.ChunkCount(|content|, CHUNK_SIZE)
    && forall k :: 0 <= k < |rounds| ==>
         Chunks.ChunkRange(k, |content|, CHUNK_SIZE) == Some((rounds[k].start, rounds[k].end))
  }

  lemma WholeChunksThatReachTheEnd(rounds: seq<Round>, content: bytes)
    requires rounds != [] && WholeChunks(rounds) && Sent(rounds) >= |content|
    requires forall i :: 0 <= i < |rounds| ==> RoundFits(rounds[i], content)
    ensures AreChunkRanges(rounds, content)
  {
    SentIsLastEnd(rounds, content);
    forall k | 0 <= k < |rounds|
      ensures Chunks.ChunkRange(k, |content|, CHUNK_SIZE) == Some((rounds[k].start, rounds[k].end))
    {
      WholeChunksAreChunkRanges(rounds, content, k);
    }
    var n := |rounds|;
    Chunks.CountIsExact(|content|, CHUNK_SIZE, n - 1);
    Chunks.CountIsExact(|content|, CHUNK_SIZE, n);
    assert n * CHUNK_SIZE == (n - 1) * CHUNK_SIZE + CHUNK_SIZE;
  }

  /* ---- A server that keeps at least `g` bytes of every request ---- */

  /** At least `g` bytes of a chunk that arrives are kept, or all of it if it is shorter, and a
      308 reports everything held. */
  predicate KeepsAtLeast(c: Choice, g: nat, total: nat) {
    c.kept >= g && (c.answer.Resume? ==> c.answer.report >= total && !c.answer.silent)
  }

  predicate AllKeepAtLeast(script: seq<Choice>, g: nat, total: nat) {
    forall c :: c in script ==> KeepsAtLeast(c, g, total)
  }

  /** The server keeps every chunk whole. */
  predicate AllKeepChunks(script: seq<Choice>, total: nat) {
    AllKeepAtLeast(script, CHUNK_SIZE, total)
  }

  /** The server holds a prefix of the file that reaches at least `g` bytes, or to the end of the
      chunk, past the start of the chunk, and not past its end. */
  predicate Gained(srv: Server, content: bytes, start: nat, end: nat, g: nat) {
    HoldsPrefix(srv, content) && Min(start + g, end + 1) <= |srv.held| <= end + 1
  }

  predicate ReportsAll(r: ChunkResult, held: bytes) {
    r.Incomplete? ==> r.received == |held|
  }

  /** One chunk request, the first or a repeated one. */
  lemma ChunkGains(held: bytes, content: bytes, start: nat, end: nat, kept: nat, g: nat)
    requires start <= end < |content| && g <= kept && held <= content
    requires |held| == start || Min(start + g, end + 1) <= |held| <= end + 1
    ensures var held' := Keep(held, start, content[start..end + 1], kept);
      held' <= content && Min(start + g, end + 1) <= |held'| <= end + 1
  {
    KeepHoldsPrefix(held, content, start, end + 1, kept);
  }

  lemma ChunkServedGains(srv: Server, c: Choice, content: bytes, start: nat, end: nat, g: nat)
    requires start <= end < |content| < TWO_64 && 0 < g && KeepsAtLeast(c, g, |content|) && HoldsPrefix(srv, content)
    requires |srv.held| == start || Gained(srv, content, start, end, g)
    ensures var (srv', reply) := Serve(PutChunk(start, content[start..end + 1], |content|), srv, c);
      && Gained(srv', content, start, end, g)
      && (reply.Got? ==> ReportsAll(ReadChunkReply(Accepted(reply.status, reply.payload), end), srv'.held))
  {
    ChunkGains(srv.held, content, start, end, c.kept, g);
    var held := Keep(srv.held, start, content[start..end + 1], c.kept);
    if c.answer.Resume? {
      RangeRoundTrip(|held|);
    }
  }

  predicate PutGains(content: bytes, offset: nat, g: nat, r: Return<ChunkResult>)
    requires offset < |content|
  {
    Gained(r.srv, content, offset, LastOf(content, offset), g) && ReportsAll(r.result, r.srv.held)
  }

  lemma HttpPutGains(net: Net, srv: Server, token: string, script: seq<Choice>, content: bytes, offset: nat, g: nat)
    requires offset < |content| < TWO_64 && HoldsPrefix(srv, content) && |srv.held| == offset
    requires script != [] && 0 < g && AllKeepAtLeast(script, g, |content|)
    ensures PutGains(content, offset, g, HttpCalls(net, content).put(srv, token, script, offset))
  {
    var end := LastOf(content, offset);
    var req := PutChunk(offset, content[offset..end + 1], |content|);
    var inv := (s: Server) => Gained(s, content, offset, end, g);
    var says := (s: Server, status: nat, p: Payload) => ReportsAll(ReadChunkReply(Accepted(status, p), end), s.held);
    forall s: Server, tok: string, c: Choice | (s == srv || inv(s)) && c in script
      ensures Keeps(AlsoResume, PeerFor(req)(s, tok, c), inv, says)
    {
      ChunkServedGains(s, c, content, offset, end, g);
    }
    MachineReaches(AlsoResume, PeerFor(req), net, script, Start(srv, token), inv, says);
  }

  predicate AskReports(srv: Server, r: Return<QueryResult>) {
    r.srv.held == srv.held && (r.result.Received? ==> r.result.received == |srv.held|)
  }

  lemma QueryServedReports(srv: Server, c: Choice, content: bytes, g: nat)
    requires HoldsPrefix(srv, content) && |content| < TWO_64 && KeepsAtLeast(c, g, |content|)
    ensures var (srv', reply) := Serve(Query(|content|), srv, c);
      && srv'.held == srv.held
      && (reply.Got? ==>
            var r := ReadQueryReply(Accepted(reply.status, reply.payload), |content|);
            r.Received? ==> r.received == |srv.held|)
  {
    if c.answer.Resume? && |srv.held| > 0 {
      RangeRoundTrip(|srv.held|);
    }
  }

  lemma HttpAskReports(net: Net, srv: Server, token: string, script: seq<Choice>, content: bytes, g: nat)
    requires HoldsPrefix(srv, content) && |content| < TWO_64 && AllKeepAtLeast(script, g, |content|)
    ensures AskReports(srv, HttpCalls(net, content).ask(srv, token, script))
  {
    var req := Query(|content|);
    var inv := (s: Server) => s.held == srv.held;
    var says := (s: Server, status: nat, p: Payload) =>
      var r := ReadQueryReply(Accepted(status, p), |content|); r.Received? ==> r.received == |srv.held|;
    forall s: Server, tok: string, c: Choice | inv(s) && c in script
      ensures Keeps(AlsoResume, PeerFor(req)(s, tok, c), inv, says)
    {
      QueryServedReports(s, c, content, g);
    }
    MachineKeeps(AlsoResume, PeerFor(req), net, script, Start(srv, token), inv, says);
  }

  ghost predicate Gaining(calls: Calls, content: bytes, g: nat) {
    && (forall srv: Server, token, script, offset: nat ::
          offset < |content| && HoldsPrefix(srv, content) && |srv.held| == offset
          && script != [] && AllKeepAtLeast(script, g, |content|) ==>
            PutGains(content, offset, g, calls.put(srv, token, script, offset)))
    && (forall srv, token, script :: HoldsPrefix(srv, content) && AllKeepAtLeast(script, g, |content|) ==>
          AskReports(srv, calls.ask(srv, token, script)))
  }

  lemma HttpCallsAreGaining(net: Net, content: bytes, g: nat)
    requires |content| < TWO_64 && 0 < g
    ensures Gaining(HttpCalls(net, content), content, g)
  {
    var calls := HttpCalls(net, content);
    forall srv: Server, token, script, offset: nat
      | offset < |content| && HoldsPrefix(srv, content) && |srv.held| == offset
        && script != [] && AllKeepAtLeast(script, g, |content|)
      ensures PutGains(content, offset, g, calls.put(srv, token, script, offset))
    {
      HttpPutGains(net, srv, token, script, content, offset, g);
    }
    forall srv, token, script | HoldsPrefix(srv, content) && AllKeepAtLeast(script, g, |content|)
      ensures AskReports(srv, calls.ask(srv, token, script))
    {
      HttpAskReports(net, srv, token, script, content, g);
    }
  }

  /** Each round starts at least `g` bytes after the one before, or where it ended, and leaves
      no gap. */
  predicate Paced(rounds: seq<Round>, g: nat) {
    && (rounds != [] ==> rounds[0].start == 0)
    && forall k :: 0 < k < |rounds| ==> FollowsAt(rounds[k - 1], g, rounds[k].start)
  }

  predicate FollowsAt(r: Round, g: nat, next: nat) {
    Min(r.start + g, r.end + 1) <= next <= r.end + 1
  }

  /** The client knows exactly what the server holds, and got there at this pace. */
  predicate InStep(at: Position, content: bytes, g: nat) {
    && Paced(at.rounds, g) && HoldsPrefix(at.srv, content) && |at.srv.held| == at.offset
    && if at.rounds == [] then at.offset == 0 else FollowsAt(at.rounds[|at.rounds| - 1], g, at.offset)
  }

  lemma AfterIsPaced(at: Position, content: bytes, g: nat, srv: Server, token: string, offset: nat, sends: nat)
    requires InStep(at, content, g) && at.offset < |content|
    ensures Paced(After(at, content, srv, token, offset, sends).rounds, g)
  {
  }

  lemma AfterIsInStep(at: Position, content: bytes, g: nat, srv: Server, token: string, sends: nat)
    requires InStep(at, content, g) && at.offset < |content| && Gained(srv, content, at.offset, LastOf(content, at.offset), g)
    ensures InStep(After(at, content, srv, token, |srv.held|, sends), content, g)
  {
    AfterIsPaced(at, content, g, srv, token, |srv.held|, sends);
  }

  lemma RestKeepsAtLeast(script: seq<Choice>, n: nat, g: nat, total: nat)
    requires n <= |script| && AllKeepAtLeast(script, g, total)
    ensures AllKeepAtLeast(script[n..], g, total)
  {
  }

  /** The query after a failed chunk call. */
  lemma ResumeIsPaced(calls: Calls, content: bytes, at: Position, script: seq<Choice>, g: nat)
    requires Timed(calls) && Gaining(calls, content, g) && AllKeepAtLeast(script, g, |content|) && script != []
    requires InStep(at, content, g) && at.offset < |content|
    requires calls.put(at.srv, at.token, script, at.offset).result.ChunkError?
    ensures var turn := TakeTurn(calls, content, at, script);
      if turn.End? then Paced(turn.upload.at.rounds, g)
      else InStep(turn.next, content, g) && AllKeepAtLeast(turn.rest, g, |content|)
  {
    var put := calls.put(at.srv, at.token, script, at.offset);
    assert TimedPut(script, put) && PutGains(content, at.offset, g, put);
    var rest := script[put.sends..];
    RestKeepsAtLeast(script, put.sends, g, |content|);
    var ask := calls.ask(put.srv, put.token, rest);
    assert TimedAsk(rest, ask) && AskReports(put.srv, ask);
    RestKeepsAtLeast(rest, ask.sends, g, |content|);
    if ask.result.Received? {
      AfterIsInStep(at, content, g, ask.srv, ask.token, put.sends + ask.sends);
    } else {
      AfterIsPaced(at, content, g, ask.srv, ask.token, at.offset, put.sends + ask.sends);
    }
  }

  lemma TurnIsPaced(calls: Calls, content: bytes, at: Position, script: seq<Choice>, g: nat)
    requires Timed(calls) && Gaining(calls, content, g) && AllKeepAtLeast(script, g, |content|)
    requires InStep(at, content, g) && at.offset < |content|
    ensures var turn := TakeTurn(calls, content, at, script);
      if turn.End? then Paced(turn.upload.at.rounds, g)
      else InStep(turn.next, content, g) && AllKeepAtLeast(turn.rest, g, |content|)
  {
    var put := calls.put(at.srv, at.token, script, at.offset);
    assert TimedPut(script, put);
    if put.result.ChunkError? {
      ResumeIsPaced(calls, content, at, script, g);
    } else if put.result.Incomplete? {
      assert PutGains(content, at.offset, g, put);
      AfterIsInStep(at, content, g, put.srv, put.token, put.sends);
      RestKeepsAtLeast(script, put.sends, g, |content|);
    } else {
      AfterIsPaced(at, content, g, put.srv, put.token, at.offset, put.sends);
    }
  }

  lemma {:induction false} RunIsPaced(calls: Calls, content: bytes, at: Position, script: seq<Choice>, g: nat)
    requires Timed(calls) && Gaining(calls, content, g) && AllKeepAtLeast(script, g, |content|) && InStep(at, content, g)
    ensures Paced(UploadFrom(calls, content, at, script).at.rounds, g)
    decreases |script|
  {
    if at.offset < |content| {
      TurnIsPaced(calls, content, at, script, g);
      var turn := TakeTurn(calls, content, at, script);
      if turn.On? {
        RunIsPaced(calls, content, turn.next, turn.rest, g);
      }
    }
  }

  lemma UploadIsPaced(net: Net, content: bytes, token: string, script: seq<Choice>, g: nat)
    requires |content| < TWO_64 && 0 < g && AllKeepAtLeast(script, g, |content|)
    ensures Timed(HttpCalls(net, content))
    ensures Paced(UploadFrom(HttpCalls(net, content), content, Begin(EMPTY, token), script).at.rounds, g)
  {
    HttpCallsAreHonest(net, content);
    HttpCallsAreGaining(net, content, g);
    RunIsPaced(HttpCalls(net, content), content, Begin(EMPTY, token), script, g);
  }

  lemma PacedRoundsGain(rounds: seq<Round>, content: bytes, g: nat)
    requires Paced(rounds, g) && g <= CHUNK_SIZE
    requires forall i :: 0 <= i < |rounds| ==> RoundFits(rounds[i], content)
    ensures Gains(rounds, g)
    ensures g == CHUNK_SIZE ==> WholeChunks(rounds)
  {
    forall k | 0 < k < |rounds|
      ensures rounds[k - 1].start + g <= rounds[k].start && (g == CHUNK_SIZE ==> rounds[k].start == rounds[k - 1].end + 1)
    {
      assert RoundFits(rounds[k - 1], content) && RoundFits(rounds[k], content);
      assert FollowsAt(rounds[k - 1], g, rounds[k].start);
    }
  }

  /** Against a server that keeps at least `g` bytes of every request, with replies lost,
      requests repeated and resumes asked for in any order, an upload ends within
      ceil(length / g) rounds of ten requests. */
  lemma GainingUploadEnds(net: Net, content: bytes, token: string, script: seq<Choice>, g: nat)
    requires |content| < TWO_64 && 0 < g <= CHUNK_SIZE && AllKeepAtLeast(script, g, |content|)
    ensures Timed(HttpCalls(net, content))
    ensures var u := UploadFrom(HttpCalls(net, content), content, Begin(EMPTY, token), script);
      && Gains(u.at.rounds, g)
      && |u.at.rounds| <= Chunks.ChunkCount(|content|, g)
      && Requests(u.at.rounds) <= 10 * Chunks.ChunkCount(|content|, g)
      && (|script| > 10 * Chunks.ChunkCount(|content|, g) ==> !u.outcome.Running?)
  {
    UploadIsSafe(net, content, token, script);
    UploadIsPaced(net, content, token, script, g);
    var u := UploadFrom(HttpCalls(net, content), content, Begin(EMPTY, token), script);
    PacedRoundsGain(u.at.rounds, content, g);
    UploadEndsInTime(net, content, token, script, g);
  }

  /** Against a server that keeps whole chunks the rounds follow each other without gap or
      overlap, the upload ends within ten requests per chunk, and if it leaves the whole file on
      the server it has sent exactly `chunk_range(0)` to `chunk_range(chunk_count - 1)`. */
  lemma WholeChunkUpload(net: Net, content: bytes, token: string, script: seq<Choice>)
    requires 0 < |content| < TWO_64 && AllKeepChunks(script, |content|)
    ensures Timed(HttpCalls(net, content))
    ensures var u := UploadFrom(HttpCalls(net, content), content, Begin(EMPTY, token), script);
      && WholeChunks(u.at.rounds)
      && (forall k :: 0 <= k < |u.at.rounds| ==> u.at.rounds[k].start == k * 5242880 && u.at.rounds[k].start % 262144 == 0)
      && (|script| > 10 * Chunks.ChunkCount(|content|, CHUNK_SIZE) ==> !u.outcome.Running?)
      && (u.at.srv.held == content ==> AreChunkRanges(u.at.rounds, content))
  {
    UploadIsSafe(net, content, token, script);
    UploadIsPaced(net, content, token, script, CHUNK_SIZE);
    GainingUploadEnds(net, content, token, script, CHUNK_SIZE);
    var u := UploadFrom(HttpCalls(net, content), content, Begin(EMPTY, token), script);
    PacedRoundsGain(u.at.rounds, content, CHUNK_SIZE);
    forall k | 0 <= k < |u.at.rounds| ensures u.at.rounds[k].start == k * 5242880 && u.at.rounds[k].start % 262144 == 0 {
      WholeChunksAreChunkRanges(u.at.rounds, content, k);
      Chunks.CountIsExact(|content|, CHUNK_SIZE, k);
      Chunks.StartsAreAligned(k, |content|, CHUNK_SIZE);
    }
    if u.at.srv.held == content {
      WholeChunksThatReachTheEnd(u.at.rounds, content);
    }
  }

  /* ---- The ideal server ---- */

  /** A server that keeps every chunk and confirms the last one. */
  function IdealScript(len: nat, offset: nat): seq<Choice>
    decreases len - offset
  {
    if offset >= len then []
    else
      [IdealChoice(len, offset)] + IdealScript(len, offset + CHUNK_SIZE)
  }

  function IdealChoice(len: nat, offset: nat): Choice {
    Choice(CHUNK_SIZE, if offset + CHUNK_SIZE >= len then Finish(200, true) else Resume(len, false))
  }

  lemma {:induction false} IdealScriptKeepsChunks(len: nat, offset: nat)
    ensures AllKeepChunks(IdealScript(len, offset), len)
    decreases len - offset
  {
    if offset < len {
      IdealScriptKeepsChunks(len, offset + CHUNK_SIZE);
    }
  }

  lemma IdealServed(srv: Server, content: bytes, offset: nat)
    requires offset < |content| < TWO_64 && HoldsPrefix(srv, content) && |srv.held| == offset
    ensures var end := LastOf(content, offset);
      var reply := Serve(PutChunk(offset, content[offset..end + 1], |content|), srv, IdealChoice(|content|, offset)).1;
      && reply.Got? && AlsoResume.Accepts(reply.status)
      && ReadChunkReply(Accepted(reply.status, reply.payload), end) == if end + 1 == |content| then Complete else Incomplete(end + 1)
  {
    var end, c := LastOf(content, offset), IdealChoice(|content|, offset);
    ChunkGains(srv.held, content, offset, end, c.kept, CHUNK_SIZE);
    assert |Keep(srv.held, offset, content[offset..end + 1], c.kept)| == end + 1;
    if end + 1 < |content| {
      RangeRoundTrip(end + 1);
    }
  }

  /** What a chunk call gets from an ideal server. */
  predicate IdealPut(content: bytes, offset: nat, r: Return<ChunkResult>)
    requires offset < |content|
  {
    var end := LastOf(content, offset);
    r.sends == 1 && r.result == if end + 1 == |content| then Complete else Incomplete(end + 1)
  }

  ghost predicate Ideal(calls: Calls, content: bytes) {
    forall srv: Server, token, offset: nat :: offset < |content| && HoldsPrefix(srv, content) && |srv.held| == offset ==>
      IdealPut(content, offset, calls.put(srv, token, IdealScript(|content|, offset), offset))
  }

  lemma HttpCallsAreIdeal(net: Net, content: bytes)
    requires |content| < TWO_64
    ensures Ideal(HttpCalls(net, content), content)
  {
    var calls := HttpCalls(net, content);
    forall srv: Server, token, offset: nat | offset < |content| && HoldsPrefix(srv, content) && |srv.held| == offset
      ensures IdealPut(content, offset, calls.put(srv, token, IdealScript(|content|, offset), offset))
    {
      IdealServed(srv, content, offset);
    }
  }

  lemma {:induction false} IdealRun(calls: Calls, content: bytes, at: Position)
    requires Timed(calls) && Ideal(calls, content) && Gaining(calls, content, CHUNK_SIZE)
    requires InStep(at, content, CHUNK_SIZE) && at.offset < |content|
    ensures UploadFrom(calls, content, at, IdealScript(|content|, at.offset)).outcome.Uploaded?
    decreases |content| - at.offset
  {
    var script := IdealScript(|content|, at.offset);
    IdealScriptKeepsChunks(|content|, at.offset);
    TurnIsPaced(calls, content, at, script, CHUNK_SIZE);
    assert IdealPut(content, at.offset, calls.put(at.srv, at.token, script, at.offset));
    var turn := TakeTurn(calls, content, at, script);
    if turn.On? {
      assert script[1..] == IdealScript(|content|, at.offset + CHUNK_SIZE);
      IdealRun(calls, content, turn.next);
    }
  }

  /** Against such a server every nonempty upload succeeds, chunk by chunk. */
  lemma IdealUploadSucceeds(net: Net, content: bytes, token: string)
    requires 0 < |content| < TWO_64
    ensures Timed(HttpCalls(net, content))
    ensures var u := UploadFrom(HttpCalls(net, content), content, Begin(EMPTY, token), IdealScript(|content|, 0));
      && u.outcome.Uploaded?
      && u.at.srv.held == content
      && AreChunkRanges(u.at.rounds, content)
  {
    var script := IdealScript(|content|, 0);
    IdealScriptKeepsChunks(|content|, 0);
    UploadIsSafe(net, content, token, script);
    WholeChunkUpload(net, content, token, script);
    HttpCallsAreGaining(net, content, CHUNK_SIZE);
    HttpCallsAreIdeal(net, content);
    IdealRun(HttpCalls(net, content), content, Begin(EMPTY, token));
  }
}
