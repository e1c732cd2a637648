/** A resumable upload against a server that can lose replies, keep part of a chunk
    or ask for a resume.  The environment is a finite script with one entry per HTTP
    request; a run whose script ends early is a prefix of a longer run, so a statement
    about all scripts is a statement about every moment of every run. */
module ResumableUpload {
  import opened Prelude
  import opened HttpRetry
  import opened RangeHeader
  import Chunks

  const CHUNK_SIZE: nat := Chunks.CHUNK_SIZE

  /* ---- The server ---- */

  /** What the server holds, and the requests it answered with the replies that arrived. */
  datatype Server = Server(held: bytes, log: seq<Exchange>)

  datatype Exchange = Exchange(req: Request, reply: Reply<Payload>)

  const EMPTY: Server := Server([], [])

  datatype Request = PutChunk(start: nat, data: bytes, total: nat) | Query(total: nat)

  /** How the server answers one request, once it has decided how much to keep. */
  datatype Answer =
    | Drop
    | Refuse(status: nat)
    | Resume(report: nat, silent: bool)
    | Finish(status: nat, bodyOk: bool)

  datatype Choice = Choice(kept: nat, answer: Answer)

  datatype Payload = Payload(range: Option<string>, bodyOk: bool)

  /** The server extends what it holds by a prefix of the chunk, provided the chunk
      starts inside or right after it; a chunk can arrive again. */
  function Keep(held: bytes, start: nat, data: bytes, kept: nat): bytes {
    var k := Min(kept, |data|);
    if start <= |held| <= start + k then held[..start] + data[..k] else held
  }

  function HeldAfter(held: bytes, req: Request, kept: nat): bytes {
    if req.PutChunk? then Keep(held, req.start, req.data, kept) else held
  }

  const UNAVAILABLE: nat := 503

  /** The contract of the server: success only when it holds the whole file, 308 with
      a range it really holds, and 308 to a chunk without a Range header only when it
      kept the whole chunk.  Choices outside the contract become 503. */
  function Serve(req: Request, srv: Server, c: Choice): (Server, Reply<Payload>) {
    var held := HeldAfter(srv.held, req, c.kept);
    var nothing := Payload(None, false);
    var reply :=
      match c.answer
      case Drop => Lost
      case Refuse(status) => Got(if AlsoResume.Accepts(status) then UNAVAILABLE else status, nothing)
      case Finish(status, bodyOk) =>
        if |held| == req.total && IsSuccess(status) then Got(status, Payload(None, bodyOk)) else Got(UNAVAILABLE, nothing)
      case Resume(report, silent) =>
        var n := Min(report, |held|);
        if silent && (req.Query? || |held| >= req.start + |req.data|) then Got(308, nothing)
        else if n > 0 then Got(308, Payload(Some(FormatRange(n)), false))
        else if req.Query? then Got(308, nothing)
        else Got(UNAVAILABLE, nothing);
    (Server(held, srv.log + [Exchange(req, reply)]), reply)
  }

  function PeerFor(req: Request): Peer<Server, Choice, Payload> {
    (srv: Server, token: string, c: Choice) => Serve(req, srv, c)
  }

  /* ---- One call of the client ---- */

  datatype ChunkResult = Incomplete(received: nat) | Complete | ChunkError | ChunkCutOff

  function ReadChunkReply(o: Outcome<Payload>, rangeEnd: nat): ChunkResult {
    match o
    case CutOff => ChunkCutOff
    case Broken => ChunkError
    case Rejected(_) => ChunkError
    case Accepted(status, p) =>
      if status == 200 || status == 201 then if p.bodyOk then Complete else ChunkError
      else if status == 308 then
        match ParseRangeHeader(p.range)
        case Some(n) => Incomplete(n)
        case None => Incomplete(rangeEnd + 1)
      else ChunkError
  }

  datatype QueryResult = Received(received: nat) | QueryError | QueryCutOff

  function ReadQueryReply(o: Outcome<Payload>, total: nat): QueryResult {
    match o
    case CutOff => QueryCutOff
    case Broken => QueryError
    case Rejected(_) => QueryError
    case Accepted(status, p) =>
      if status == 200 || status == 201 then Received(total)
      else if status == 308 then
        match ParseRangeHeader(p.range)
        case Some(n) => Received(n)
        case None => Received(0)
      else QueryError
  }

  type Net = Option<Refresher>

  /** Last byte of the chunk at `offset`. */
  function LastOf(content: bytes, offset: nat): nat
    requires offset < |content|
  {
    Min(offset + CHUNK_SIZE, |content|) - 1
  }

  function Put(net: Net, srv: Server, token: string, script: seq<Choice>, content: bytes, offset: nat): Trace<Server, Payload>
    requires offset < |content|
  {
    var end := LastOf(content, offset);
    Machine(AlsoResume, PeerFor(PutChunk(offset, content[offset..end + 1], |content|)), net, script, Start(srv, token))
  }

  function Ask(net: Net, srv: Server, token: string, script: seq<Choice>, total: nat): Trace<Server, Payload> {
    Machine(AlsoResume, PeerFor(Query(total)), net, script, Start(srv, token))
  }

  /* ---- What the contract gives the client ---- */

  predicate HoldsPrefix(srv: Server, content: bytes) {
    srv.held <= content
  }

  lemma KeepHoldsPrefix(held: bytes, content: bytes, start: nat, end: nat, kept: nat)
    requires held <= content && start <= end <= |content|
    ensures Keep(held, start, content[start..end], kept) <= content
    ensures |held| <= |Keep(held, start, content[start..end], kept)| <= Max(|held|, end)
  {
    var data := content[start..end];
    var k := Min(kept, |data|);
    if start <= |held| <= start + k {
      assert held[..start] + data[..k] == content[..start + k];
    }
  }

  /** What an accepted reply to a chunk tells about the server. */
  predicate ChunkReplyIsTrue(srv: Server, status: nat, p: Payload, content: bytes, end: nat) {
    var r := ReadChunkReply(Accepted(status, p), end);
    (r.Complete? ==> srv.held == content) && (r.Incomplete? ==> r.received <= |srv.held|)
  }

  predicate QueryReplyIsTrue(srv: Server, status: nat, p: Payload, content: bytes) {
    var r := ReadQueryReply(Accepted(status, p), |content|);
    r.Received? ==> r.received <= |srv.held|
  }

  lemma ServeChunk(srv: Server, c: Choice, content: bytes, start: nat, end: nat)
    requires HoldsPrefix(srv, content) && start <= end < |content| < TWO_64
    ensures var (srv', reply) := Serve(PutChunk(start, content[start..end + 1], |content|), srv, c);
      && HoldsPrefix(srv', content)
      && |srv.held| <= |srv'.held| <= Max(|srv.held|, end + 1)
      && (reply.Got? && AlsoResume.Accepts(reply.status) ==> ChunkReplyIsTrue(srv', reply.status, reply.payload, content, end))
  {
    KeepHoldsPrefix(srv.held, content, start, end + 1, c.kept);
    var held := Keep(srv.held, start, content[start..end + 1], c.kept);
    if c.answer.Resume? && Min(c.answer.report, |held|) > 0 {
      RangeRoundTrip(Min(c.answer.report, |held|));
    }
  }

  lemma ServeQuery(srv: Server, c: Choice, content: bytes)
    requires HoldsPrefix(srv, content) && |content| < TWO_64
    ensures var (srv', reply) := Serve(Query(|content|), srv, c);
      && srv'.held == srv.held
      && (reply.Got? && AlsoResume.Accepts(reply.status) ==> QueryReplyIsTrue(srv', reply.status, reply.payload, content))
  {
    if c.answer.Resume? && Min(c.answer.report, |srv.held|) > 0 {
      RangeRoundTrip(Min(c.answer.report, |srv.held|));
    }
  }

  /** What the requests for one chunk keep, starting from `low` bytes held. */
  function ChunkInv(content: bytes, low: nat, end: nat): Server -> bool {
    (s: Server) => HoldsPrefix(s, content) && low <= |s.held| <= Max(low, end + 1)
  }

  function ChunkSays(content: bytes, end: nat): (Server, nat, Payload) -> bool {
    (s: Server, status: nat, p: Payload) => ChunkReplyIsTrue(s, status, p, content, end)
  }

  ghost predicate PeerKeeps(peer: Peer<Server, Choice, Payload>, content: bytes, low: nat, end: nat) {
    forall s: Server, tok: string, c: Choice :: ChunkInv(content, low, end)(s) ==>
      Keeps(AlsoResume, peer(s, tok, c), ChunkInv(content, low, end), ChunkSays(content, end))
  }

  lemma ChunkPeerKeeps(content: bytes, low: nat, start: nat, end: nat)
    requires start <= end < |content| < TWO_64
    ensures PeerKeeps(PeerFor(PutChunk(start, content[start..end + 1], |content|)), content, low, end)
  {
    var req := PutChunk(start, content[start..end + 1], |content|);
    forall s: Server, tok: string, c: Choice | ChunkInv(content, low, end)(s)
      ensures Keeps(AlsoResume, PeerFor(req)(s, tok, c), ChunkInv(content, low, end), ChunkSays(content, end))
    {
      ServeChunk(s, c, content, start, end);
    }
  }

  /** A chunk call keeps a prefix on the server, loses nothing, says what is true of the server
      and takes at most five requests. */
  predicate ChunkCallTrue(srv: Server, t: Trace<Server, Payload>, content: bytes, end: nat) {
    var r := ReadChunkReply(t.outcome, end);
    && HoldsPrefix(t.at.peer, content)
    && |srv.held| <= |t.at.peer.held| <= Max(|srv.held|, end + 1)
    && (r.Complete? ==> t.at.peer.held == content)
    && (r.Incomplete? ==> r.received <= |t.at.peer.held|)
    && t.at.sends <= 5
  }

  /** A chunk call through the retry loop, for any peer that keeps the invariant. */
  lemma ChunkCallIsTrue(
    peer: Peer<Server, Choice, Payload>, net: Net, srv: Server, token: string, script: seq<Choice>, content: bytes, end: nat)
    requires HoldsPrefix(srv, content)
    requires PeerKeeps(peer, content, |srv.held|, end)
    ensures ChunkCallTrue(srv, Machine(AlsoResume, peer, net, script, Start(srv, token)), content, end)
  {
    var inv, says := ChunkInv(content, |srv.held|, end), ChunkSays(content, end);
    MachineKeeps(AlsoResume, peer, net, script, Start(srv, token), inv, says);
    CallIsBounded(AlsoResume, peer, net, script, srv, token);
    var t := Machine(AlsoResume, peer, net, script, Start(srv, token));
    assert inv(t.at.peer);
    assert t.outcome.Accepted? ==> says(t.at.peer, t.outcome.status, t.outcome.payload);
  }

  lemma PutIsTrue(net: Net, srv: Server, token: string, script: seq<Choice>, content: bytes, offset: nat)
    requires HoldsPrefix(srv, content) && offset < |content| < TWO_64
    ensures ChunkCallTrue(srv, Put(net, srv, token, script, content, offset), content, LastOf(content, offset))
  {
    var end := LastOf(content, offset);
    ChunkPeerKeeps(content, |srv.held|, offset, end);
    ChunkCallIsTrue(PeerFor(PutChunk(offset, content[offset..end + 1], |content|)), net, srv, token, script, content, end);
  }

  lemma AskIsTrue(net: Net, srv: Server, token: string, script: seq<Choice>, content: bytes)
    requires HoldsPrefix(srv, content) && |content| < TWO_64
    ensures var t := Ask(net, srv, token, script, |content|);
      var r := ReadQueryReply(t.outcome, |content|);
      && t.at.peer.held == srv.held
      && (r.Received? ==> r.received <= |srv.held|)
      && t.at.sends <= 5
  {
    var req := Query(|content|);
    var inv := (s: Server) => s.held == srv.held;
    var says := (s: Server, status: nat, p: Payload) => QueryReplyIsTrue(s, status, p, content);
    forall s: Server, tok: string, c: Choice | inv(s) ensures Keeps(AlsoResume, PeerFor(req)(s, tok, c), inv, says) {
      ServeQuery(s, c, content);
    }
    MachineKeeps(AlsoResume, PeerFor(req), net, script, Start(srv, token), inv, says);
    CallIsBounded(AlsoResume, PeerFor(req), net, script, srv, token);
  }

  /* ---- The two calls as the loop sees them ---- */

  /** Where a call left the server, the token and the script, and what it returned. */
  datatype Return<+R> = Return(srv: Server, token: string, sends: nat, result: R)

  /** The chunk call, by offset, and the query. */
  datatype Calls = Calls(
    put: (Server, string, seq<Choice>, nat) -> Return<ChunkResult>,
    ask: (Server, string, seq<Choice>) -> Return<QueryResult>)

  /** The calls of the HTTP client for one file. */
  function HttpCalls(net: Net, content: bytes): Calls {
    Calls(
      (srv: Server, token: string, script: seq<Choice>, offset: nat) =>
        if offset >= |content| then Return(srv, token, |script|, ChunkCutOff)
        else
          var t := Put(net, srv, token, script, content, offset);
          Return(t.at.peer, t.at.token, t.at.sends, ReadChunkReply(t.outcome, LastOf(content, offset))),
      (srv: Server, token: string, script: seq<Choice>) =>
        var t := Ask(net, srv, token, script, |content|);
        Return(t.at.peer, t.at.token, t.at.sends, ReadQueryReply(t.outcome, |content|)))
  }

  /** A call uses up part of the script: at least one entry, and all of it if cut off. */
  ghost predicate Timed(calls: Calls) {
    && (forall srv, token, script, offset: nat :: TimedPut(script, calls.put(srv, token, script, offset)))
    && (forall srv, token, script :: TimedAsk(script, calls.ask(srv, token, script)))
  }

  predicate TimedPut(script: seq<Choice>, r: Return<ChunkResult>) {
    r.sends <= |script| && if r.result.ChunkCutOff? then r.sends == |script| else r.sends >= 1
  }

  predicate TimedAsk(script: seq<Choice>, r: Return<QueryResult>) {
    r.sends <= |script| && (r.result.QueryCutOff? ==> r.sends == |script|)
  }

  /** From a server that holds a prefix: what a chunk call may do and say. */
  predicate HonestPut(srv: Server, content: bytes, offset: nat, r: Return<ChunkResult>)
    requires offset < |content|
  {
    && HoldsPrefix(r.srv, content)
    && |srv.held| <= |r.srv.held| <= Max(|srv.held|, LastOf(content, offset) + 1)
    && (r.result.Complete? ==> r.srv.held == content)
    && (r.result.Incomplete? ==> r.result.received <= |r.srv.held|)
    && r.sends <= 5
  }

  predicate HonestAsk(srv: Server, r: Return<QueryResult>) {
    && r.srv.held == srv.held
    && (r.result.Received? ==> r.result.received <= |srv.held|)
    && r.sends <= 5
  }

  ghost predicate Honest(calls: Calls, content: bytes) {
    && (forall srv, token, script, offset: nat :: HoldsPrefix(srv, content) && offset < |content| ==>
          HonestPut(srv, content, offset, calls.put(srv, token, script, offset)))
    && (forall srv, token, script :: HoldsPrefix(srv, content) ==> HonestAsk(srv, calls.ask(srv, token, script)))
  }

  lemma HttpCallsAreHonest(net: Net, content: bytes)
    requires |content| < TWO_64
    ensures Timed(HttpCalls(net, content)) && Honest(HttpCalls(net, content), content)
  {
    var calls := HttpCalls(net, content);
    forall srv, token, script, offset: nat | HoldsPrefix(srv, content) && offset < |content|
      ensures HonestPut(srv, content, offset, calls.put(srv, token, script, offset))
    {
      PutIsTrue(net, srv, token, script, content, offset);
    }
    forall srv, token, script | HoldsPrefix(srv, content) ensures HonestAsk(srv, calls.ask(srv, token, script)) {
      AskIsTrue(net, srv, token, script, content);
    }
  }

  /* ---- The upload loop ---- */

  datatype UploadOutcome =
    | Uploaded        // Ok: the server confirmed the whole file
    | Failed          // Err: a chunk and the query after it both failed
    | NotConfirmed    // Err: the loop ended without a completion reply
    | Running         // the script ended first

  /** One turn of the loop: the range sent and the requests it took. */
  datatype Round = Round(start: nat, end: nat, sends: nat)

  /** Where the loop stands: the server, the token, the offset and the rounds so far. */
  datatype Position = Position(srv: Server, token: string, offset: nat, rounds: seq<Round>)

  datatype Upload = Upload(at: Position, outcome: UploadOutcome)

  datatype Turn = End(upload: Upload) | On(next: Position, rest: seq<Choice>)

  /** The position after a round at `at`. */
  function After(at: Position, content: bytes, srv: Server, token: string, offset: nat, sends: nat): Position
    requires at.offset < |content|
  {
    Position(srv, token, offset, at.rounds + [Round(at.offset, LastOf(content, at.offset), sends)])
  }

  /** One turn of the loop. */
  function TakeTurn(calls: Calls, content: bytes, at: Position, script: seq<Choice>): (turn: Turn)
    requires Timed(calls) && at.offset < |content|
    ensures turn.On? ==> |turn.rest| < |script|
  {
    var put := calls.put(at.srv, at.token, script, at.offset);
    assert TimedPut(script, put);
    var rest := script[put.sends..];
    match put.result
    case ChunkCutOff => End(Upload(After(at, content, put.srv, put.token, at.offset, put.sends), Running))
    case Complete => End(Upload(After(at, content, put.srv, put.token, at.offset, put.sends), Uploaded))
    case Incomplete(received) => On(After(at, content, put.srv, put.token, received, put.sends), rest)
    case ChunkError =>
      var ask := calls.ask(put.srv, put.token, rest);
      assert TimedAsk(rest, ask);
      var sends := put.sends + ask.sends;
      match ask.result
      case QueryCutOff => End(Upload(After(at, content, ask.srv, ask.token, at.offset, sends), Running))
      case QueryError => End(Upload(After(at, content, ask.srv, ask.token, at.offset, sends), Failed))
      case Received(received) => On(After(at, content, ask.srv, ask.token, received, sends), rest[ask.sends..])
  }

  /** The run of the loop from a position on. */
  function UploadFrom(calls: Calls, content: bytes, at: Position, script: seq<Choice>): Upload
    requires Timed(calls)
    decreases |script|
  {
    if at.offset >= |content| then Upload(at, NotConfirmed)
    else
      match TakeTurn(calls, content, at, script)
      case End(u) => u
      case On(next, rest) => UploadFrom(calls, content, next, rest)
  }

  function Begin(srv: Server, token: string): Position {
    Position(srv, token, 0, [])
  }

  /** The loop of the client. */
  method UploadResumable(calls: Calls, content: bytes, srv: Server, token: string, script: seq<Choice>) returns (u: Upload)
    requires Timed(calls)
    ensures u == UploadFrom(calls, content, Begin(srv, token), script)
  {
    var at, rest := Begin(srv, token), script;
    ghost var whole := UploadFrom(calls, content, at, script);
    while at.offset < |content|
      invariant whole == UploadFrom(calls, content, at, rest)
      decreases |rest|
    {
      ghost var turn := TakeTurn(calls, content, at, rest);
      var end := Min(at.offset + CHUNK_SIZE, |content|) - 1;
      var put := calls.put(at.srv, at.token, rest, at.offset);
      assert TimedPut(rest, put);
      rest := rest[put.sends..];
      if put.result.ChunkError? {
        var ask := calls.ask(put.srv, put.token, rest);
        assert TimedAsk(rest, ask);
        rest := rest[ask.sends..];
        at := Position(ask.srv, ask.token, at.offset, at.rounds + [Round(at.offset, end, put.sends + ask.sends)]);
        match ask.result {
          case QueryCutOff =>
            return Upload(at, Running);
          case QueryError =>
            return Upload(at, Failed);
          case Received(received) =>
            at := at.(offset := received);
        }
      } else {
        at := Position(put.srv, put.token, at.offset, at.rounds + [Round(at.offset, end, put.sends)]);
        match put.result {
          case ChunkCutOff =>
            return Upload(at, Running);
          case Complete =>
            return Upload(at, Uploaded);
          case Incomplete(received) =>
            at := at.(offset := received);
        }
      }
      assert turn == On(at, rest);
    }
    return Upload(at, NotConfirmed);
  }

  /* ---- Safety of every run ---- */

  /** The server holds a prefix of the file and no more than was sent, the client's
      offset is inside that prefix, and no round took more than ten requests. */
  predicate Safe(at: Position, content: bytes) {
    && HoldsPrefix(at.srv, content)
    && |at.srv.held| <= Sent(at.rounds)
    && at.offset <= |at.srv.held|
    && forall k :: 0 <= k < |at.rounds| ==> RoundFits(at.rounds[k], content)
  }

  predicate RoundFits(r: Round, content: bytes) {
    && r.start < |content|
    && r.end == LastOf(content, r.start)
    && r.sends <= 10
  }

  /** How far into the file the rounds have reached. */
  function Sent(rounds: seq<Round>): nat {
    if rounds == [] then 0
    else Max(Sent(rounds[..|rounds| - 1]), rounds[|rounds| - 1].end + 1)
  }

  lemma SentSnoc(rounds: seq<Round>, r: Round)
    ensures Sent(rounds + [r]) == Max(Sent(rounds), r.end + 1)
  {
    assert (rounds + [r])[..|rounds|] == rounds;
  }

  /** The position after a round, if the calls of the round were honest. */
  lemma SafeAfter(at: Position, content: bytes, srv: Server, token: string, offset: nat, sends: nat)
    requires Safe(at, content) && at.offset < |content| && sends <= 10
    requires HoldsPrefix(srv, content) && offset <= |srv.held| <= Max(|at.srv.held|, LastOf(content, at.offset) + 1)
    ensures Safe(After(at, content, srv, token, offset, sends), content)
  {
    SentSnoc(at.rounds, Round(at.offset, LastOf(content, at.offset), sends));
  }

  /** Where a turn with honest calls leads. */
  lemma TurnLeadsTo(calls: Calls, content: bytes, at: Position, script: seq<Choice>)
    returns (srv: Server, token: string, offset: nat, sends: nat)
    requires Timed(calls) && Honest(calls, content)
    requires HoldsPrefix(at.srv, content) && at.offset <= |at.srv.held| && at.offset < |content|
    ensures var turn := TakeTurn(calls, content, at, script);
      && (if turn.End? then turn.upload.at else turn.next) == After(at, content, srv, token, offset, sends)
      && (turn.End? && turn.upload.outcome.Uploaded? ==> srv.held == content)
      && (turn.End? ==> !turn.upload.outcome.NotConfirmed?)
    ensures HoldsPrefix(srv, content) && |at.srv.held| <= |srv.held| <= Max(|at.srv.held|, LastOf(content, at.offset) + 1)
    ensures offset <= |srv.held| && sends <= 10
  {
    var put := calls.put(at.srv, at.token, script, at.offset);
    assert TimedPut(script, put) && HonestPut(at.srv, content, at.offset, put);
    srv, token, sends := put.srv, put.token, put.sends;
    offset := if put.result.Incomplete? then put.result.received else at.offset;
    if put.result.ChunkError? {
      var ask := calls.ask(put.srv, put.token, script[put.sends..]);
      assert HonestAsk(put.srv, ask);
      srv, token, sends := ask.srv, ask.token, put.sends + ask.sends;
      offset := if ask.result.Received? then ask.result.received else at.offset;
    }
  }

  lemma TurnIsSafe(calls: Calls, content: bytes, at: Position, script: seq<Choice>)
    requires Timed(calls) && Honest(calls, content) && Safe(at, content) && at.offset < |content|
    ensures var turn := TakeTurn(calls, content, at, script);
      var at' := if turn.End? then turn.upload.at else turn.next;
      && Safe(at', content)
      && |at.srv.held| <= |at'.srv.held|
      && (turn.End? && turn.upload.outcome.Uploaded? ==> at'.srv.held == content)
      && (turn.End? ==> !turn.upload.outcome.NotConfirmed?)
  {
    var srv, token, offset, sends := TurnLeadsTo(calls, content, at, script);
    SafeAfter(at, content, srv, token, offset, sends);
  }

  /** `NotConfirmed` is reported only when the server does hold the whole file. */
  lemma {:induction false} RunIsSafe(calls: Calls, content: bytes, at: Position, script: seq<Choice>)
    requires Timed(calls) && Honest(calls, content) && Safe(at, content)
    ensures var u := UploadFrom(calls, content, at, script);
      && Safe(u.at, content)
      && |at.srv.held| <= |u.at.srv.held|
      && (u.outcome.Uploaded? || u.outcome.NotConfirmed? ==> u.at.srv.held == content)
    decreases |script|
  {
    if at.offset < |content| {
      TurnIsSafe(calls, content, at, script);
      var turn := TakeTurn(calls, content, at, script);
      if turn.On? {
        RunIsSafe(calls, content, turn.next, turn.rest);
      }
    }
  }

  /** Every moment of every upload: the server holds a prefix of the file, the client's
      offset is inside it, a round takes at most ten requests, and an Ok result means
      that the server holds the whole file.  So does the error of a loop that ends
      without confirmation. */
  lemma UploadIsSafe(net: Net, content: bytes, token: string, script: seq<Choice>)
    requires |content| < TWO_64
    ensures Timed(HttpCalls(net, content))
    ensures var u := UploadFrom(HttpCalls(net, content), content, Begin(EMPTY, token), script);
      Safe(u.at, content) && (u.outcome.Uploaded? || u.outcome.NotConfirmed? ==> u.at.srv.held == content)
  {
    HttpCallsAreHonest(net, content);
    RunIsSafe(HttpCalls(net, content), content, Begin(EMPTY, token), script);
  }

  /** The server may answer 308 without a Range header: to a chunk that it holds to its end, and
      to any query. */
  lemma ServerMayBeSilent(srv: Server, req: Request, kept: nat)
    requires req.PutChunk? ==> |HeldAfter(srv.held, req, kept)| >= req.start + |req.data|
    ensures Serve(req, srv, Choice(kept, Resume(0, true))).1 == Got(308, Payload(None, false))
    ensures req.Query? && srv.held == [] ==> Serve(req, srv, Choice(kept, Resume(0, false))).1 == Got(308, Payload(None, false))
  {
  }

  /** A 308 to a chunk without a Range header is read as "whole chunk kept".  From a safe
      position that leads to a safe one exactly when the server did keep it to its end. */
  lemma SilentResumeIsSafeIff(calls: Calls, content: bytes, at: Position, script: seq<Choice>, srv: Server, token: string, sends: nat)
    requires Timed(calls) && Safe(at, content) && at.offset < |content|
    requires HoldsPrefix(srv, content) && |srv.held| <= Max(|at.srv.held|, LastOf(content, at.offset) + 1) && sends <= 5
    requires calls.put(at.srv, at.token, script, at.offset)
          == Return(srv, token, sends, ReadChunkReply(Accepted(308, Payload(None, false)), LastOf(content, at.offset)))
    ensures var turn := TakeTurn(calls, content, at, script);
      turn.On? && (Safe(turn.next, content) <==> |srv.held| >= LastOf(content, at.offset) + 1)
  {
    var end := LastOf(content, at.offset);
    if |srv.held| >= end + 1 {
      SafeAfter(at, content, srv, token, end + 1, sends);
    }
  }
}
