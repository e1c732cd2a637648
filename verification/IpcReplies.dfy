/** The other half of the connection's promise: a reply that the daemon has sent and the reader
    has taken has reached its caller. */
module IpcReplies {
  import opened DaemonIpc

  /* ---- Ids on their way ---- */


  function RequestIds(reqs: seq<Request>): multiset<int> {
    if reqs == [] then multiset{} else multiset{reqs[0].id} + RequestIds(reqs[1..])
  }

  function ReplyIds(ms: seq<Message>): multiset<int> {
    if ms == [] then multiset{}
    else (if ms[0].Response? then multiset{ms[0].id} else multiset{}) + ReplyIds(ms[1..])
  }

  /** The ids on their way, as requests or as replies. */
  function InFlight(s: Sys): multiset<int> {
    RequestIds(s.outbox) + RequestIds(s.wire) + ReplyIds(s.inbound)
  }

  lemma {:induction false} RequestIdsSnoc(reqs: seq<Request>, r: Request)
    ensures RequestIds(reqs + [r]) == RequestIds(reqs) + multiset{r.id}
  {
    if reqs == [] {
      assert reqs + [r] == [r] && [r][1..] == [];
    } else {
      assert (reqs + [r])[1..] == reqs[1..] + [r];
      RequestIdsSnoc(reqs[1..], r);
    }
  }

  lemma {:induction false} ReplyIdsSnoc(ms: seq<Message>, m: Message)
    ensures ReplyIds(ms + [m]) == ReplyIds(ms) + if m.Response? then multiset{m.id} else multiset{}
  {
    if ms == [] {
      assert ms + [m] == [m] && [m][1..] == [];
    } else {
      assert (ms + [m])[1..] == ms[1..] + [m];
      ReplyIdsSnoc(ms[1..], m);
    }
  }

  lemma SendPutsOne(s: Sys, c: Caller)
    requires CanStep(s, Event.Send(c)) && !s.writerDead
    ensures InFlight(Step(s, Event.Send(c))) == InFlight(s) + multiset{s.ids[c]}
  {
    RequestIdsSnoc(s.outbox, Request(s.ids[c], s.payloads[c]));
  }

  lemma ForwardMovesOne(s: Sys)
    requires CanStep(s, Forward)
    ensures InFlight(Step(s, Forward)) == InFlight(s)
  {
    RequestIdsSnoc(s.wire, s.outbox[0]);
    assert RequestIds(s.outbox) == multiset{s.outbox[0].id} + RequestIds(s.outbox[1..]);
  }

  lemma ServeMovesOne(s: Sys, answer: Answer)
    requires CanStep(s, Serve(answer))
    ensures InFlight(Step(s, Serve(answer))) == InFlight(s)
  {
    ReplyIdsSnoc(s.inbound, Route(s.wire[0], answer));
    assert RequestIds(s.wire) == multiset{s.wire[0].id} + RequestIds(s.wire[1..]);
  }

  lemma OtherLinesAddNone(s: Sys, e: Event)
    requires CanStep(s, e) && (e.Notify? || e.Reject? || e.Garble?)
    ensures InFlight(Step(s, e)) == InFlight(s)
  {
    ReplyIdsSnoc(s.inbound, if e.Notify? then Push(e.event) else if e.Reject? then NoUsableId else Unparsable);
  }

  lemma DeliverTakesOne(s: Sys)
    requires CanStep(s, Deliver)
    ensures var m := s.inbound[0];
      InFlight(s) == if m.Response? then InFlight(Step(s, Deliver)) + multiset{m.id} else InFlight(Step(s, Deliver))
  {
    var m := s.inbound[0];
    var head, rest := if m.Response? then multiset{m.id} else multiset{}, ReplyIds(s.inbound[1..]);
    assert ReplyIds(s.inbound) == head + rest;
    Reorder(RequestIds(s.outbox) + RequestIds(s.wire), head, rest);
  }

  lemma Reorder(a: multiset<int>, b: multiset<int>, c: multiset<int>)
    ensures a + (b + c) == (a + c) + b
  {
  }

  predicate Sender(sent: set<Caller>, ids: map<Caller, int>, id: int) {
    exists c :: c in sent && c in ids && ids[c] == id
  }

  /** An id is on its way at most once, its caller has sent it, and as long as the reader runs
      that caller is waiting. */
  predicate FlightOk(f: multiset<int>, sent: set<Caller>, ids: map<Caller, int>, pending: map<int, Caller>, done: bool) {
    forall id :: id in f ==> f[id] == 1 && Sender(sent, ids, id) && (!done ==> id in pending)
  }

  predicate FlightInv(s: Sys) {
    FlightOk(InFlight(s), s.sent, s.ids, s.book.pending, s.readerDone)
  }

  /** A caller that has not sent is not answered while the reader runs. */
  predicate WaitsBeforeSend(s: Sys) {
    forall c :: c in s.registered && c in s.ids && c !in s.sent && !s.readerDone ==> s.ids[c] in s.book.pending
  }

  /** Nothing taken away. */
  lemma FlightGrows(s: Sys, s': Sys)
    requires FlightInv(s) && InFlight(s') == InFlight(s) && s.sent <= s'.sent
    requires forall c :: c in s.ids ==> c in s'.ids && s'.ids[c] == s.ids[c]
    requires s'.readerDone || (!s.readerDone && s.book.pending.Keys <= s'.book.pending.Keys)
    ensures FlightInv(s')
  {
    forall id | id in InFlight(s') ensures Sender(s'.sent, s'.ids, id) {
      var c :| c in s.sent && c in s.ids && s.ids[c] == id;
      assert c in s'.sent && c in s'.ids && s'.ids[c] == id;
    }
  }

  lemma FlightAdds(f: multiset<int>, c: Caller, sent: set<Caller>, ids: map<Caller, int>, pending: map<int, Caller>, done: bool)
    requires FlightOk(f, sent, ids, pending, done) && c in ids && !Sender(sent, ids, ids[c]) && (!done ==> ids[c] in pending)
    ensures FlightOk(f + multiset{ids[c]}, sent + {c}, ids, pending, done)
  {
    assert ids[c] !in f;
    forall id | id in f + multiset{ids[c]} ensures Sender(sent + {c}, ids, id) {
      if id == ids[c] {
        assert c in sent + {c};
      } else {
        var d :| d in sent && d in ids && ids[d] == id;
        assert d in sent + {c};
      }
    }
  }

  lemma SendKeepsFlight(s: Sys, c: Caller)
    requires Inv(s) && FlightInv(s) && WaitsBeforeSend(s) && CanStep(s, Event.Send(c)) && !s.writerDead
    ensures FlightInv(Step(s, Event.Send(c)))
  {
    SendPutsOne(s, c);
    assert !Sender(s.sent, s.ids, s.ids[c]);
    FlightAdds(InFlight(s), c, s.sent, s.ids, s.book.pending, s.readerDone);
  }

  lemma FlightShrinks(f: multiset<int>, f': multiset<int>, id: int, sent: set<Caller>, ids: map<Caller, int>, pending: map<int, Caller>)
    requires FlightOk(f, sent, ids, pending, false) && f == f' + multiset{id}
    ensures FlightOk(f', sent, ids, pending - {id}, false)
  {
    assert id in f && f[id] == f'[id] + 1;
    forall x | x in f' ensures f'[x] == 1 && x != id && Sender(sent, ids, x) && x in pending - {id} {
      assert x in f;
    }
  }

  lemma DeliverKeepsWaiting(s: Sys, id: int)
    requires Inv(s) && WaitsBeforeSend(s) && Sender(s.sent, s.ids, id)
    ensures WaitsBeforeSend(s.(book := s.book.(pending := s.book.pending - {id})))
  {
    var d :| d in s.sent && d in s.ids && s.ids[d] == id;
    assert forall c :: c in s.ids && c != d ==> s.ids[c] != id;
  }

  lemma DeliverKeepsFlight(s: Sys)
    requires Inv(s) && FlightInv(s) && WaitsBeforeSend(s) && CanStep(s, Deliver)
    ensures FlightInv(Step(s, Deliver)) && WaitsBeforeSend(Step(s, Deliver))
  {
    var s', m := Step(s, Deliver), s.inbound[0];
    DeliverTakesOne(s);
    if m.Response? {
      assert m.id in InFlight(s);
      FlightShrinks(InFlight(s), InFlight(s'), m.id, s.sent, s.ids, s.book.pending);
      DeliverKeepsWaiting(s, m.id);
    }
  }

  lemma OthersKeepFlight(s: Sys, e: Event)
    requires Inv(s) && FlightInv(s) && CanStep(s, e) && !e.Deliver? && (e.Send? ==> s.writerDead)
    ensures FlightInv(Step(s, e))
  {
    OthersMoveNothing(s, e);
    FlightGrows(s, Step(s, e));
  }

  lemma OthersMoveNothing(s: Sys, e: Event)
    requires CanStep(s, e) && !e.Deliver? && (e.Send? ==> s.writerDead)
    ensures InFlight(Step(s, e)) == InFlight(s)
  {
    match e
    case Forward => ForwardMovesOne(s);
    case Serve(answer) => ServeMovesOne(s, answer);
    case Notify(_) => OtherLinesAddNone(s, e);
    case Reject => OtherLinesAddNone(s, e);
    case Garble => OtherLinesAddNone(s, e);
    case _ =>
  }

  lemma OthersKeepWaiting(s: Sys, e: Event)
    requires Inv(s) && WaitsBeforeSend(s) && CanStep(s, e) && !e.Deliver?
    ensures WaitsBeforeSend(Step(s, e))
  {
  }

  lemma StepKeepsFlight(s: Sys, e: Event)
    requires Inv(s) && FlightInv(s) && WaitsBeforeSend(s) && CanStep(s, e)
    ensures FlightInv(Step(s, e)) && WaitsBeforeSend(Step(s, e))
  {
    if e.Deliver? {
      DeliverKeepsFlight(s);
    } else {
      OthersKeepWaiting(s, e);
      if e.Send? && !s.writerDead {
        SendKeepsFlight(s, e.c);
      } else {
        OthersKeepFlight(s, e);
      }
    }
  }

  /* ---- Replies that were taken ---- */

  /** Every request that the daemon handled has its reply unread, or its caller has it. */
  predicate RepliesInv(s: Sys) {
    forall t :: t in s.handled ==> Response(t.0, t.2) in s.inbound || Delivered(s, t.0, t.2)
  }

  predicate Delivered(s: Sys, id: int, answer: Answer) {
    exists c :: c in s.sent && c in s.ids && s.ids[c] == id && (c, Replied(answer)) in s.book.log
  }

  lemma DeliveredStays(s: Sys, e: Event, id: int, answer: Answer)
    requires IdsInv(s) && CanStep(s, e) && Delivered(s, id, answer)
    ensures Delivered(Step(s, e), id, answer)
  {
    var c :| c in s.sent && c in s.ids && s.ids[c] == id && (c, Replied(answer)) in s.book.log;
    var s' := Step(s, e);
    assert c in s'.sent && c in s'.ids && s'.ids[c] == id && (c, Replied(answer)) in s'.book.log;
  }

  /** A reply that the reader takes resolves the caller of that id, whatever it says. */
  lemma DeliverResolves(s: Sys)
    requires Inv(s) && FlightInv(s) && CanStep(s, Deliver) && s.inbound[0].Response?
    ensures var m, s' := s.inbound[0], Step(s, Deliver);
      && m.id in s.book.pending && s'.book.pending == s.book.pending - {m.id}
      && s'.book.log == s.book.log + [(s.book.pending[m.id], Replied(m.answer))]
      && Delivered(s', m.id, m.answer)
  {
    var m, s' := s.inbound[0], Step(s, Deliver);
    DeliverTakesOne(s);
    assert m.id in InFlight(s);
    var c := s.book.pending[m.id];
    var d :| d in s.sent && d in s.ids && s.ids[d] == m.id;
    assert c == d;
    assert s'.book.log[|s.book.log|] == (c, Replied(m.answer));
  }

  /** A reply stays unread, or the reader takes it. */
  lemma UnreadStays(s: Sys, e: Event, m: Message)
    requires CanStep(s, e) && m in s.inbound
    ensures m in Step(s, e).inbound || (e.Deliver? && s.inbound[0] == m)
  {
    var s' := Step(s, e);
    var k :| 0 <= k < |s.inbound| && s.inbound[k] == m;
    if e.Deliver? {
      assert k > 0 ==> s'.inbound[k - 1] == m;
    } else {
      assert s'.inbound[k] == m;
    }
  }

  lemma HandledIsUnread(s: Sys, e: Event, t: (int, string, Answer))
    requires CanStep(s, e) && t in Step(s, e).handled && t !in s.handled
    ensures Response(t.0, t.2) in Step(s, e).inbound
  {
    assert Step(s, e).inbound[|s.inbound|] == Response(t.0, t.2);
  }

  lemma StepKeepsReplies(s: Sys, e: Event)
    requires Inv(s) && FlightInv(s) && RepliesInv(s) && CanStep(s, e)
    ensures RepliesInv(Step(s, e))
  {
    var s' := Step(s, e);
    forall t | t in s'.handled ensures Response(t.0, t.2) in s'.inbound || Delivered(s', t.0, t.2) {
      if t !in s.handled {
        HandledIsUnread(s, e, t);
      } else if Delivered(s, t.0, t.2) {
        DeliveredStays(s, e, t.0, t.2);
      } else {
        UnreadStays(s, e, Response(t.0, t.2));
        if e.Deliver? && s.inbound[0].Response? {
          DeliverResolves(s);
        }
      }
    }
  }

  lemma {:induction false} RunKeepsReplies(s: Sys, es: seq<Event>)
    requires Inv(s) && FlightInv(s) && WaitsBeforeSend(s) && RepliesInv(s) && CanRun(s, es)
    ensures var s' := Run(s, es); Inv(s') && FlightInv(s') && RepliesInv(s')
    decreases |es|
  {
    if es != [] {
      StepKeepsInv(s, es[0]);
      StepKeepsFlight(s, es[0]);
      StepKeepsReplies(s, es[0]);
      RunKeepsReplies(Step(s, es[0]), es[1..]);
    }
  }

  /** The daemon answered the request of `c`. */
  predicate WasHandled(s: Sys, c: Caller, answer: Answer) {
    c in s.ids && c in s.payloads && (s.ids[c], s.payloads[c], answer) in s.handled
  }

  /** In every interleaving: a call whose request was handled has returned with that answer,
      result or error, unless the reply is still unread. */
  lemma ServedCallReturns(es: seq<Event>, c: Caller, answer: Answer)
    requires CanRun(INITIAL, es)
    ensures var s := Run(INITIAL, es);
      WasHandled(s, c, answer) && Response(s.ids[c], answer) !in s.inbound ==> Returns(s, c, Ended(Replied(answer)))
  {
    RunKeepsReplies(INITIAL, es);
    var s := Run(INITIAL, es);
    if WasHandled(s, c, answer) && Response(s.ids[c], answer) !in s.inbound {
      assert Delivered(s, s.ids[c], answer);
      var d :| d in s.sent && d in s.ids && s.ids[d] == s.ids[c] && (d, Replied(answer)) in s.book.log;
      assert d == c;
    }
  }

  /** In every interleaving: the line the reader takes next, if it is a response, ends the call of
      that id with its answer. */
  lemma DeliveryEndsCall(es: seq<Event>)
    requires CanRun(INITIAL, es) && CanStep(Run(INITIAL, es), Deliver) && Run(INITIAL, es).inbound[0].Response?
    ensures var s := Run(INITIAL, es);
      var m := s.inbound[0];
      m.id in s.book.pending && Returns(Step(s, Deliver), s.book.pending[m.id], Ended(Replied(m.answer)))
  {
    RunKeepsReplies(INITIAL, es);
    var s := Run(INITIAL, es);
    DeliverResolves(s);
    var m, s' := s.inbound[0], Step(s, Deliver);
    var c := s.book.pending[m.id];
    assert s'.book.log[|s.book.log|] == (c, Replied(m.answer));
    var d :| d in s'.sent && d in s'.ids && s'.ids[d] == m.id && (d, Replied(m.answer)) in s'.book.log;
    assert c == d;
  }
}
