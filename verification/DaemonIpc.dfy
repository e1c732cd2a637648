/** Concurrent JSON-RPC calls multiplexed over one connection: callers, the writer
    task, the daemon's router and the reader task, interleaved in any order. */
module DaemonIpc {

  /** One invocation of `call`. */
  type Caller = nat

  datatype Request = Request(id: int, payload: string)

  /** Result or error object of a response. */
  datatype Answer = Result(value: string) | Error(code: int, message: string)

  /** A line from the daemon, as the reader sees it. */
  datatype Message = Response(id: int, answer: Answer) | NoUsableId | Push(event: string) | Unparsable

  /** How a pending entry was resolved. */
  datatype Outcome = Replied(answer: Answer) | Disconnected

  /** The pending map and the log of resolutions, in order. */
  datatype Book = Book(pending: map<int, Caller>, log: seq<(Caller, Outcome)>)

  /** `Router::handle`: a response carries the id of its request. */
  function Route(req: Request, answer: Answer): Message {
    Response(req.id, answer)
  }

  /** The reader's dispatch of one line. */
  function Dispatch(b: Book, m: Message): Book {
    if m.Response? && m.id in b.pending then
      Book(b.pending - {m.id}, b.log + [(b.pending[m.id], Replied(m.answer))])
    else b
  }

  /** An order in which the keys of the pending map can be drained. */
  predicate IsOrder(order: seq<int>, pending: map<int, Caller>) {
    && (forall k :: 0 <= k < |order| ==> order[k] in pending)
    && (forall i :: i in pending ==> i in order)
    && forall a, b :: 0 <= a < b < |order| ==> order[a] != order[b]
  }

  function Drained(pending: map<int, Caller>, order: seq<int>): (log: seq<(Caller, Outcome)>)
    requires forall k :: 0 <= k < |order| ==> order[k] in pending
    ensures |log| == |order| && forall k :: 0 <= k < |order| ==> log[k] == (pending[order[k]], Disconnected)
  {
    if order == [] then []
    else Drained(pending, order[..|order| - 1]) + [(pending[order[|order| - 1]], Disconnected)]
  }

  /** The map can always be drained. */
  lemma {:induction false} OrderExists(pending: map<int, Caller>) returns (order: seq<int>)
    ensures IsOrder(order, pending)
    decreases |pending|
  {
    if i :| i in pending {
      var rest := OrderExists(pending - {i});
      order := rest + [i];
    } else {
      order := [];
    }
  }

  lemma DrainedSnoc(pending: map<int, Caller>, order: seq<int>, id: int)
    requires id in pending && forall k :: 0 <= k < |order| ==> order[k] in pending
    ensures Drained(pending, order + [id]) == Drained(pending, order) + [(pending[id], Disconnected)]
  {
    assert (order + [id])[..|order|] == order;
  }

  /* ---- The whole system ---- */

  /** `late`: callers that registered after the drain; `sent` and `refused`: callers whose
      request went to the writer, and callers that found the writer gone. */
  datatype Sys = Sys(
    nextId: int, ids: map<Caller, int>, payloads: map<Caller, string>, registered: set<Caller>, late: set<Caller>,
    sent: set<Caller>, refused: set<Caller>, book: Book, outbox: seq<Request>, wire: seq<Request>, handled: set<(int, string, Answer)>,
    inbound: seq<Message>, writerDead: bool, readerDone: bool)

  const INITIAL: Sys :=
    Sys(1, map[], map[], {}, {}, {}, {}, Book(map[], []), [], [], {}, [], false, false)

  datatype Event =
    | Allocate(c: Caller, payload: string)   // fetch_add
    | Register(c: Caller)                    // insert under the lock
    | Send(c: Caller)                        // hand the line to the writer, or fail
    | Forward                                // the writer writes one line
    | WriterDies
    | Serve(answer: Answer)                  // the daemon handles one request
    | Notify(event: string)                  // the daemon pushes an event
    | Reject                                 // the daemon answers an unreadable line
    | Garble                                 // a line that does not parse
    | Deliver                                // the reader takes one line
    | ReaderEnds(order: seq<int>)            // end of stream: drain

  predicate CanStep(s: Sys, e: Event) {
    match e
    case Allocate(c, _) => c !in s.ids
    case Register(c) => c in s.ids && c !in s.registered
    case Send(c) => c in s.registered && c in s.ids && c in s.payloads && c !in s.sent && c !in s.refused
    case Forward => s.outbox != [] && !s.writerDead
    case Serve(_) => s.wire != []
    case Deliver => s.inbound != [] && !s.readerDone
    case ReaderEnds(order) => !s.readerDone && IsOrder(order, s.book.pending)
    case _ => true
  }

  function Step(s: Sys, e: Event): Sys
    requires CanStep(s, e)
  {
    match e
    case Allocate(c, payload) =>
      s.(nextId := s.nextId + 1, ids := s.ids[c := s.nextId], payloads := s.payloads[c := payload])
    case Register(c) =>
      s.(registered := s.registered + {c}, late := if s.readerDone then s.late + {c} else s.late,
         book := s.book.(pending := s.book.pending[s.ids[c] := c]))
    case Send(c) =>
      if s.writerDead then s.(refused := s.refused + {c})
      else s.(sent := s.sent + {c}, outbox := s.outbox + [Request(s.ids[c], s.payloads[c])])
    case Forward => s.(outbox := s.outbox[1..], wire := s.wire + [s.outbox[0]])
    case WriterDies => s.(writerDead := true)
    case Serve(answer) =>
      var req := s.wire[0];
      s.(wire := s.wire[1..], handled := s.handled + {(req.id, req.payload, answer)}, inbound := s.inbound + [Route(req, answer)])
    case Notify(event) => s.(inbound := s.inbound + [Push(event)])
    case Reject => s.(inbound := s.inbound + [NoUsableId])
    case Garble => s.(inbound := s.inbound + [Unparsable])
    case Deliver => s.(book := Dispatch(s.book, s.inbound[0]), inbound := s.inbound[1..])
    case ReaderEnds(order) =>
      s.(readerDone := true, book := Book(map[], s.book.log + Drained(s.book.pending, order)))
  }

  /** How a call ended for its caller. */
  datatype Return = Ended(outcome: Outcome) | Refused

  /** The call of `c` has returned: its send was refused, or it was waiting and was resolved. */
  predicate Returns(s: Sys, c: Caller, r: Return) {
    match r
    case Refused => c in s.refused
    case Ended(outcome) => c in s.sent && (c, outcome) in s.book.log
  }

  ghost predicate Returned(s: Sys, c: Caller) {
    exists r :: Returns(s, c, r)
  }

  /** The connection object of the application.  Each method is one step of the system, so
      an interleaving of their calls is one of its runs. */
  class DaemonClient {
    var nextId: int
    var book: Book
    var outbox: seq<Request>
    var writerDead: bool
    ghost var sys: Sys

    ghost predicate Valid()
      reads this
    {
      nextId == sys.nextId && book == sys.book && outbox == sys.outbox && writerDead == sys.writerDead
    }

    constructor ()
      ensures Valid() && sys == INITIAL
    {
      nextId, book, outbox, writerDead, sys := 1, Book(map[], []), [], false, INITIAL;
    }

    method FetchId(c: Caller, payload: string) returns (id: int)
      requires Valid() && CanStep(sys, Allocate(c, payload))
      modifies this
      ensures Valid() && sys == Step(old(sys), Allocate(c, payload)) && sys.ids[c] == id
      ensures id == old(nextId) && nextId == id + 1
    {
      id := nextId;
      nextId := nextId + 1;
      sys := Step(sys, Allocate(c, payload));
    }

    method Register(c: Caller, id: int)
      requires Valid() && CanStep(sys, Event.Register(c)) && sys.ids[c] == id
      modifies this
      ensures Valid() && sys == Step(old(sys), Event.Register(c))
    {
      book := book.(pending := book.pending[id := c]);
      sys := Step(sys, Event.Register(c));
    }

    /** Fails when the writer task is gone; the pending entry stays. */
    method Send(c: Caller, req: Request) returns (ok: bool)
      requires Valid() && CanStep(sys, Event.Send(c)) && req == Request(sys.ids[c], sys.payloads[c])
      modifies this
      ensures Valid() && sys == Step(old(sys), Event.Send(c))
      ensures ok <==> !Returns(sys, c, Refused)
    {
      ok := !writerDead;
      if ok {
        outbox := outbox + [req];
      }
      sys := Step(sys, Event.Send(c));
    }

    /** A call up to where it waits, with no other task in between.  It returns an error at
        once exactly when the writer is gone. */
    method Call(c: Caller, payload: string) returns (id: int, waits: bool)
      requires Valid() && c !in sys.ids && c !in sys.registered && c !in sys.sent && c !in sys.refused
      modifies this
      ensures Valid()
      ensures var es := [Allocate(c, payload), Event.Register(c), Event.Send(c)];
        CanRun(old(sys), es) && sys == Run(old(sys), es)
      ensures sys.ids == old(sys).ids[c := id]
      ensures if waits then c in sys.sent else Returns(sys, c, Refused)
      ensures waits <==> !old(writerDead)
    {
      ghost var s := sys;
      id := FetchId(c, payload);
      ghost var s1 := sys;
      Register(c, id);
      ghost var s2 := sys;
      waits := Send(c, Request(id, payload));
      RunThree(s, Allocate(c, payload), Event.Register(c), Event.Send(c));
      assert s2.ids == s1.ids;
    }

    /** The writer task takes one line; a failed write ends it. */
    method WriteOne(written: bool)
      requires Valid() && CanStep(sys, Forward)
      modifies this
      ensures Valid() && sys == Step(old(sys), if written then Forward else WriterDies)
    {
      if written {
        outbox := outbox[1..];
        sys := Step(sys, Forward);
      } else {
        writerDead := true;
        sys := Step(sys, WriterDies);
      }
    }

    method HandleMessage(m: Message)
      requires Valid() && CanStep(sys, Deliver) && m == sys.inbound[0]
      modifies this
      ensures Valid() && sys == Step(old(sys), Deliver)
      ensures m.Push? ==> book == old(book)
    {
      match m {
        case Response(id, answer) =>
          if id in book.pending {
            book := Book(book.pending - {id}, book.log + [(book.pending[id], Replied(answer))]);
          }
        case _ =>
      }
      sys := Step(sys, Deliver);
    }

    /** The end of the reader task: every entry present is failed, each once, in the
        order in which the map hands them out. */
    method DrainPending(order: seq<int>)
      requires Valid() && CanStep(sys, ReaderEnds(order))
      modifies this
      ensures Valid() && sys == Step(old(sys), ReaderEnds(order))
    {
      ghost var was := book;
      var log := book.log;
      for k := 0 to |order|
        invariant Valid() && book == was && sys == old(sys)
        invariant log == was.log + Drained(was.pending, order[..k])
      {
        DrainedSnoc(was.pending, order[..k], order[k]);
        assert order[..k] + [order[k]] == order[..k + 1];
        log := log + [(book.pending[order[k]], Disconnected)];
      }
      assert order[..|order|] == order;
      book := Book(map[], log);
      sys := Step(sys, ReaderEnds(order));
    }
  }

  /* ---- Invariant ---- */

  predicate Resolved(log: seq<(Caller, Outcome)>, c: Caller) {
    exists k :: 0 <= k < |log| && log[k].0 == c
  }

  /** Where a caller stands in its call; a send goes out or is refused. */
  predicate StagesInv(s: Sys) {
    && s.registered <= s.ids.Keys == s.payloads.Keys
    && s.late <= s.registered
    && s.sent <= s.registered && s.refused <= s.registered && s.sent !! s.refused
  }

  predicate UniqueIds(s: Sys) {
    && (forall c :: c in s.ids ==> s.ids[c] < s.nextId)
    && (forall c, d :: c in s.ids && d in s.ids && s.ids[c] == s.ids[d] ==> c == d)
  }

  predicate IdsInv(s: Sys) {
    StagesInv(s) && UniqueIds(s)
  }

  /** `req` is the request of some caller. */
  predicate Genuine(s: Sys, id: int, payload: string) {
    exists c :: c in s.ids && c in s.payloads && s.ids[c] == id && s.payloads[c] == payload
  }

  predicate TrafficInv(s: Sys) {
    && (forall k :: 0 <= k < |s.outbox| ==> Genuine(s, s.outbox[k].id, s.outbox[k].payload))
    && (forall k :: 0 <= k < |s.wire| ==> Genuine(s, s.wire[k].id, s.wire[k].payload))
    && (forall t :: t in s.handled ==> Genuine(s, t.0, t.1))
    && (forall k :: 0 <= k < |s.inbound| && s.inbound[k].Response? ==> Handled(s, s.inbound[k].id, s.inbound[k].answer))
  }

  predicate Handled(s: Sys, id: int, answer: Answer) {
    exists t :: t in s.handled && t.0 == id && t.2 == answer
  }

  /** A registered caller is waiting or resolved, never both and never twice. */
  predicate BookInv(s: Sys) {
    BookOk(s.ids, s.registered, s.late, s.book, s.readerDone)
  }

  predicate BookOk(ids: map<Caller, int>, registered: set<Caller>, late: set<Caller>, book: Book, readerDone: bool) {
    && (forall i :: i in book.pending ==>
          book.pending[i] in registered && book.pending[i] in ids && ids[book.pending[i]] == i)
    && (forall c :: c in registered && c in ids ==> (ids[c] in book.pending <==> !Resolved(book.log, c)))
    && (forall k :: 0 <= k < |book.log| ==> book.log[k].0 in registered)
    && (forall a, b :: 0 <= a < b < |book.log| ==> book.log[a].0 != book.log[b].0)
    && (forall i :: i in book.pending && readerDone ==> book.pending[i] in late)
    && (forall c :: c in late ==> readerDone && !Resolved(book.log, c))
  }

  /** A caller that got a reply got the answer to its own request. */
  predicate LogInv(s: Sys) {
    forall k :: 0 <= k < |s.book.log| && s.book.log[k].1.Replied? ==>
      && s.book.log[k].0 in s.ids && s.book.log[k].0 in s.payloads
      && (s.ids[s.book.log[k].0], s.payloads[s.book.log[k].0], s.book.log[k].1.answer) in s.handled
  }

  predicate Inv(s: Sys) {
    IdsInv(s) && TrafficInv(s) && BookInv(s) && LogInv(s)
  }

  /* ---- Every step keeps it ---- */

  lemma GenuineStays(s: Sys, e: Event, id: int, payload: string)
    requires IdsInv(s) && CanStep(s, e) && Genuine(s, id, payload)
    ensures Genuine(Step(s, e), id, payload)
  {
    var c :| c in s.ids && c in s.payloads && s.ids[c] == id && s.payloads[c] == payload;
    var s' := Step(s, e);
    assert c in s'.ids && s'.ids[c] == id && s'.payloads[c] == payload;
  }

  lemma HandledStays(s: Sys, e: Event, id: int, answer: Answer)
    requires CanStep(s, e) && Handled(s, id, answer)
    ensures Handled(Step(s, e), id, answer)
  {
    var t :| t in s.handled && t.0 == id && t.2 == answer;
    assert t in Step(s, e).handled;
  }

  lemma StepKeepsRequests(s: Sys, e: Event)
    requires IdsInv(s) && TrafficInv(s) && CanStep(s, e)
    ensures var s' := Step(s, e);
      && (forall k :: 0 <= k < |s'.outbox| ==> Genuine(s', s'.outbox[k].id, s'.outbox[k].payload))
      && (forall k :: 0 <= k < |s'.wire| ==> Genuine(s', s'.wire[k].id, s'.wire[k].payload))
  {
    var s' := Step(s, e);
    forall k | 0 <= k < |s'.outbox| ensures Genuine(s', s'.outbox[k].id, s'.outbox[k].payload) {
      if e.Send? && k == |s.outbox| {
        assert s'.ids[e.c] == s'.outbox[k].id;
      } else {
        GenuineStays(s, e, s'.outbox[k].id, s'.outbox[k].payload);
      }
    }
    forall k | 0 <= k < |s'.wire| ensures Genuine(s', s'.wire[k].id, s'.wire[k].payload) {
      GenuineStays(s, e, s'.wire[k].id, s'.wire[k].payload);
    }
  }

  lemma StepKeepsResponses(s: Sys, e: Event)
    requires IdsInv(s) && TrafficInv(s) && CanStep(s, e)
    ensures var s' := Step(s, e);
      && (forall t :: t in s'.handled ==> Genuine(s', t.0, t.1))
      && (forall k :: 0 <= k < |s'.inbound| && s'.inbound[k].Response? ==> Handled(s', s'.inbound[k].id, s'.inbound[k].answer))
  {
    var s' := Step(s, e);
    forall t | t in s'.handled ensures Genuine(s', t.0, t.1) {
      GenuineStays(s, e, t.0, t.1);
    }
    forall k | 0 <= k < |s'.inbound| && s'.inbound[k].Response? ensures Handled(s', s'.inbound[k].id, s'.inbound[k].answer) {
      if e.Serve? && k == |s.inbound| {
        assert (s.wire[0].id, s.wire[0].payload, e.answer) in s'.handled;
      } else {
        HandledStays(s, e, s'.inbound[k].id, s'.inbound[k].answer);
      }
    }
  }

  lemma ResolvedGrows(log: seq<(Caller, Outcome)>, more: seq<(Caller, Outcome)>, c: Caller)
    ensures Resolved(log + more, c) <==> Resolved(log, c) || Resolved(more, c)
  {
    if k :| 0 <= k < |log| && log[k].0 == c {
      assert (log + more)[k].0 == c;
    }
    if k :| 0 <= k < |more| && more[k].0 == c {
      assert (log + more)[|log| + k].0 == c;
    }
  }

  /** Moving one entry from the pending map to the log. */
  lemma ResolveOneKeepsBook(s: Sys, id: int, answer: Answer)
    requires IdsInv(s) && BookInv(s) && !s.readerDone && id in s.book.pending
    ensures BookInv(s.(book := Dispatch(s.book, Response(id, answer))))
  {
    var c := s.book.pending[id];
    var entry := [(c, Replied(answer))];
    var log := s.book.log + entry;
    forall d ensures Resolved(log, d) <==> Resolved(s.book.log, d) || d == c {
      ResolvedGrows(s.book.log, entry, d);
      assert Resolved(entry, d) <==> d == c by { assert entry[0].0 == c; }
    }
    assert !Resolved(s.book.log, c);
  }

  lemma DeliverKeepsBook(s: Sys)
    requires IdsInv(s) && BookInv(s) && CanStep(s, Deliver)
    ensures BookInv(Step(s, Deliver))
  {
    var m := s.inbound[0];
    if m.Response? && m.id in s.book.pending {
      ResolveOneKeepsBook(s, m.id, m.answer);
    }
  }

  lemma DeliverKeepsLog(s: Sys)
    requires Inv(s) && CanStep(s, Deliver)
    ensures LogInv(Step(s, Deliver))
  {
    var m := s.inbound[0];
    if m.Response? && m.id in s.book.pending {
      assert Handled(s, m.id, m.answer);
      var t :| t in s.handled && t.0 == m.id && t.2 == m.answer;
      assert Genuine(s, t.0, t.1);
    }
  }

  lemma ResolvedByDrain(pending: map<int, Caller>, order: seq<int>, c: Caller)
    requires IsOrder(order, pending)
    ensures Resolved(Drained(pending, order), c) <==> exists i :: i in pending && pending[i] == c
  {
    var log := Drained(pending, order);
    if i :| i in pending && pending[i] == c {
      var k :| 0 <= k < |order| && order[k] == i;
      assert log[k].0 == c;
    }
    if k :| 0 <= k < |log| && log[k].0 == c {
      assert pending[order[k]] == c;
    }
  }

  lemma DrainResolvesOnce(s: Sys, order: seq<int>, a: nat, b: nat)
    requires IdsInv(s) && BookInv(s) && IsOrder(order, s.book.pending)
    requires a < b < |s.book.log| + |order|
    ensures var log := s.book.log + Drained(s.book.pending, order); log[a].0 != log[b].0
  {
    var n := |s.book.log|;
    if b >= n {
      var j := order[b - n];
      if a >= n {
        var i := order[a - n];
        assert s.ids[s.book.pending[i]] == i && s.ids[s.book.pending[j]] == j;
      } else {
        assert !Resolved(s.book.log, s.book.pending[j]);
        assert s.book.log[a].0 != s.book.pending[j];
      }
    }
  }

  lemma DrainKeepsBook(s: Sys, order: seq<int>)
    requires IdsInv(s) && BookInv(s) && CanStep(s, ReaderEnds(order))
    ensures BookInv(Step(s, ReaderEnds(order)))
  {
    var s' := Step(s, ReaderEnds(order));
    var more := Drained(s.book.pending, order);
    forall c | c in s.registered ensures Resolved(s'.book.log, c) {
      ResolvedGrows(s.book.log, more, c);
      ResolvedByDrain(s.book.pending, order, c);
    }
    forall a, b | 0 <= a < b < |s'.book.log| ensures s'.book.log[a].0 != s'.book.log[b].0 {
      DrainResolvesOnce(s, order, a, b);
    }
    assert forall c :: c !in s.late;
  }

  lemma RegisterKeepsBook(s: Sys, c: Caller)
    requires Inv(s) && CanStep(s, Register(c))
    ensures BookInv(Step(s, Register(c)))
  {
    assert !Resolved(s.book.log, c);
  }

  lemma StepKeepsIds(s: Sys, e: Event)
    requires IdsInv(s) && CanStep(s, e)
    ensures IdsInv(Step(s, e))
  {
    assert StagesInv(Step(s, e));
    assert UniqueIds(Step(s, e));
  }

  /** Every other step leaves the book alone. */
  lemma OthersKeepBook(s: Sys, e: Event)
    requires Inv(s) && CanStep(s, e) && !e.Deliver? && !e.ReaderEnds? && !e.Register?
    ensures BookInv(Step(s, e)) && LogInv(Step(s, e))
  {
  }

  lemma StepKeepsInv(s: Sys, e: Event)
    requires Inv(s) && CanStep(s, e)
    ensures Inv(Step(s, e))
  {
    StepKeepsIds(s, e);
    StepKeepsRequests(s, e);
    StepKeepsResponses(s, e);
    assert BookInv(Step(s, e)) && LogInv(Step(s, e)) by {
      match e
      case Deliver =>
        DeliverKeepsBook(s);
        DeliverKeepsLog(s);
      case ReaderEnds(order) => DrainKeepsBook(s, order);
      case Register(c) => RegisterKeepsBook(s, c);
      case _ => OthersKeepBook(s, e);
    }
  }

  /* ---- Whole runs ---- */

  predicate CanRun(s: Sys, es: seq<Event>)
    decreases |es|
  {
    es == [] || (CanStep(s, es[0]) && CanRun(Step(s, es[0]), es[1..]))
  }

  function Run(s: Sys, es: seq<Event>): Sys
    requires CanRun(s, es)
    decreases |es|
  {
    if es == [] then s else Run(Step(s, es[0]), es[1..])
  }

  lemma RunThree(s: Sys, a: Event, b: Event, c: Event)
    requires CanStep(s, a) && CanStep(Step(s, a), b) && CanStep(Step(Step(s, a), b), c)
    ensures CanRun(s, [a, b, c]) && Run(s, [a, b, c]) == Step(Step(Step(s, a), b), c)
  {
    var s1 := Step(s, a);
    var s2 := Step(s1, b);
    var s3 := Step(s2, c);
    assert [a, b, c][1..] == [b, c] && [b, c][1..] == [c] && [c][1..] == [];
    assert CanRun(s3, []) && CanRun(s2, [c]) && CanRun(s1, [b, c]);
    assert Run(s3, []) == s3 && Run(s2, [c]) == s3 && Run(s1, [b, c]) == s3;
  }

  lemma {:induction false} RunKeepsInv(s: Sys, es: seq<Event>)
    requires Inv(s) && CanRun(s, es)
    ensures Inv(Run(s, es))
    decreases |es|
  {
    if es != [] {
      StepKeepsInv(s, es[0]);
      RunKeepsInv(Step(s, es[0]), es[1..]);
    }
  }

  /** In every interleaving: a reply reaches only the caller whose request the daemon
      handled under that id, and no caller is resolved twice. */
  lemma RepliesReachTheirCallers(es: seq<Event>)
    requires CanRun(INITIAL, es)
    ensures var s := Run(INITIAL, es);
      && (forall k :: 0 <= k < |s.book.log| && s.book.log[k].1.Replied? ==>
            var c := s.book.log[k].0;
            c in s.ids && c in s.payloads && (s.ids[c], s.payloads[c], s.book.log[k].1.answer) in s.handled)
      && (forall a, b :: 0 <= a < b < |s.book.log| ==> s.book.log[a].0 != s.book.log[b].0)
      && (forall c, d :: c in s.ids && d in s.ids && s.ids[c] == s.ids[d] ==> c == d)
  {
    RunKeepsInv(INITIAL, es);
  }

  /** Once the reader has ended, a registered call is resolved exactly when it was
      registered before the drain. */
  lemma ResolvedIffRegisteredInTime(es: seq<Event>, c: Caller)
    requires CanRun(INITIAL, es)
    ensures var s := Run(INITIAL, es);
      s.readerDone && c in s.registered ==> (Resolved(s.book.log, c) <==> c !in s.late)
  {
    RunKeepsInv(INITIAL, es);
    var s := Run(INITIAL, es);
    if s.readerDone && c in s.registered && !Resolved(s.book.log, c) {
      assert s.ids[c] in s.book.pending && s.book.pending[s.ids[c]] in s.registered;
    }
  }

  /* ---- When a call returns ---- */

  lemma ReturnedIff(s: Sys, c: Caller)
    ensures Returned(s, c) <==> c in s.refused || (c in s.sent && Resolved(s.book.log, c))
  {
    if c in s.refused {
      assert Returns(s, c, Refused);
    }
    if c in s.sent && Resolved(s.book.log, c) {
      var k :| 0 <= k < |s.book.log| && s.book.log[k].0 == c;
      assert Returns(s, c, Ended(s.book.log[k].1));
    }
  }

  /** A call returns at most once, with one result. */
  lemma {:induction false} ReturnsOnce(es: seq<Event>, c: Caller, r: Return, r': Return)
    requires CanRun(INITIAL, es) && Returns(Run(INITIAL, es), c, r) && Returns(Run(INITIAL, es), c, r')
    ensures r == r'
  {
    RunKeepsInv(INITIAL, es);
    var s := Run(INITIAL, es);
    if r.Ended? && r'.Ended? {
      var j :| 0 <= j < |s.book.log| && s.book.log[j] == (c, r.outcome);
      var k :| 0 <= k < |s.book.log| && s.book.log[k] == (c, r'.outcome);
      assert j == k;
    }
  }

  lemma {:induction false} RunKeepsReturn(s: Sys, es: seq<Event>, c: Caller, r: Return)
    requires CanRun(s, es) && Returns(s, c, r)
    ensures Returns(Run(s, es), c, r)
    decreases |es|
  {
    if es != [] {
      RunKeepsReturn(Step(s, es[0]), es[1..], c, r);
    }
  }

  /** After its send a caller changes neither its group nor whether it registered in time. */
  lemma {:induction false} SendIsFinal(s: Sys, es: seq<Event>, c: Caller)
    requires IdsInv(s) && CanRun(s, es) && (c in s.sent || c in s.refused)
    ensures var s' := Run(s, es);
      IdsInv(s') && (c in s'.sent <==> c in s.sent) && (c in s'.refused <==> c in s.refused) && (c in s'.late <==> c in s.late)
    decreases |es|
  {
    if es != [] {
      StepKeepsIds(s, es[0]);
      SendIsFinal(Step(s, es[0]), es[1..], c);
    }
  }

  /** Every call, however it interleaves with the rest: once the reader has ended, the call
      has returned if and only if, when it sent, it had registered before the drain or the
      writer was gone. */
  lemma {:induction false} ReturnsIffInTimeOrRefused(before: seq<Event>, c: Caller, after: seq<Event>)
    requires CanRun(INITIAL, before) && CanStep(Run(INITIAL, before), Event.Send(c))
    requires CanRun(Step(Run(INITIAL, before), Event.Send(c)), after)
    ensures var s := Run(INITIAL, before);
      var s' := Run(Step(s, Event.Send(c)), after);
      s'.readerDone ==> (Returned(s', c) <==> c !in s.late || s.writerDead)
  {
    RunKeepsInv(INITIAL, before);
    var s := Run(INITIAL, before);
    var t := Step(s, Event.Send(c));
    StepKeepsInv(s, Event.Send(c));
    RunKeepsInv(t, after);
    SendIsFinal(t, after, c);
    var s' := Run(t, after);
    ReturnedIff(s', c);
    if s'.readerDone && !Resolved(s'.book.log, c) {
      assert s'.ids[c] in s'.book.pending && s'.book.pending[s'.ids[c]] in s'.registered;
    }
  }

  /** After the drain nothing is resolved any more, whatever happens. */
  lemma {:induction false} NothingAfterTheDrain(s: Sys, es: seq<Event>)
    requires s.readerDone && CanRun(s, es)
    ensures Run(s, es).readerDone && Run(s, es).book.log == s.book.log
    decreases |es|
  {
    if es != [] {
      NothingAfterTheDrain(Step(s, es[0]), es[1..]);
    }
  }

  /** A call that registers and sends after the drain: with a living writer it has not
      returned in any continuation, with a dead one it returns an error at once. */
  lemma LateCall(payload: string, writerDies: bool, more: seq<Event>)
    ensures var s := Step(INITIAL, ReaderEnds([]));
      var t := if writerDies then Step(s, WriterDies) else s;
      var es := [Allocate(0, payload), Event.Register(0), Event.Send(0)];
      && CanRun(t, es)
      && (CanRun(Run(t, es), more) ==>
            if writerDies then Returns(Run(Run(t, es), more), 0, Refused) else !Returned(Run(Run(t, es), more), 0))
  {
    var s := Step(INITIAL, ReaderEnds([]));
    var t := if writerDies then Step(s, WriterDies) else s;
    RunThree(t, Allocate(0, payload), Event.Register(0), Event.Send(0));
    var u := Run(t, [Allocate(0, payload), Event.Register(0), Event.Send(0)]);
    assert u.book.log == [];
    if CanRun(u, more) {
      NothingAfterTheDrain(u, more);
      if writerDies {
        RunKeepsReturn(u, more, 0, Refused);
      } else {
        SendIsFinal(u, more, 0);
        ReturnedIff(Run(u, more), 0);
      }
    }
  }

  /** The end of the reader fails every call that is waiting then. */
  lemma DrainFailsEveryone(es: seq<Event>, order: seq<int>, c: Caller)
    requires CanRun(INITIAL, es) && CanStep(Run(INITIAL, es), ReaderEnds(order))
    ensures var s := Run(INITIAL, es);
      c in s.registered && !Resolved(s.book.log, c) ==> (c, Disconnected) in Step(s, ReaderEnds(order)).book.log
  {
    RunKeepsInv(INITIAL, es);
    var s := Run(INITIAL, es);
    if c in s.registered && !Resolved(s.book.log, c) {
      var i := s.ids[c];
      assert i in s.book.pending && s.ids[s.book.pending[i]] == i;
      var k :| 0 <= k < |order| && order[k] == i;
      assert Drained(s.book.pending, order)[k] == (c, Disconnected);
    }
  }

  /** At any moment the daemon may push an event, answer an unreadable line or send garbage, the
      writer may end, and the connection may end. */
  lemma AnythingMayArrive(s: Sys, event: string, order: seq<int>)
    ensures CanStep(s, Notify(event)) && Step(s, Notify(event)).inbound == s.inbound + [Push(event)]
    ensures CanStep(s, Reject) && Step(s, Reject).inbound == s.inbound + [NoUsableId]
    ensures CanStep(s, Garble) && Step(s, Garble).inbound == s.inbound + [Unparsable]
    ensures CanStep(s, WriterDies) && Step(s, WriterDies).writerDead
    ensures !s.readerDone && IsOrder(order, s.book.pending) ==> CanStep(s, ReaderEnds(order)) && Step(s, ReaderEnds(order)).readerDone
    ensures s.inbound != [] && !s.readerDone ==> CanStep(s, Deliver) && Step(s, Deliver).inbound == s.inbound[1..]
    ensures s.outbox != [] && !s.writerDead ==> CanStep(s, Forward) && Step(s, Forward).wire == s.wire + [s.outbox[0]]
  {
  }

  /** Pushes and unreadable lines resolve nobody: only a response does. */
  lemma OnlyResponsesResolve(s: Sys, e: Event)
    requires CanStep(s, e) && Step(s, e).book.log != s.book.log
    ensures e.ReaderEnds? || (e.Deliver? && s.inbound[0].Response? && s.inbound[0].id in s.book.pending)
  {
  }
}
