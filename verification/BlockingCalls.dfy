/** The extensions' blocking `call`: send a request, then take the first line that is
    not a push as its response.  The ids are never compared, so whether a call gets its
    own response depends on what earlier calls left unread. */
module BlockingCalls {
  import opened Prelude

  /** One line from the daemon. */
  datatype Message = Reply(id: nat) | Push | Garbled

  /** How a call goes: it fails before its request is sent, or it sends it and reads the
      lines that have arrived by the time it stops reading. */
  datatype Course = Unsent | Sent(arrivals: seq<Message>)

  /** `nextId`: id of the next request; `sent`: ids of the requests sent, in order;
      `answered`: how many of them the daemon has answered; `unread`: lines received but not
      taken; `served`: how many calls got a response. */
  datatype Conn = Conn(nextId: nat, sent: seq<nat>, answered: nat, unread: seq<Message>, served: nat)
  {
    /** Calls that sent their request and ended without a response. */
    function Unserved(): int { |sent| - served }
  }

  const FRESH: Conn := Conn(1, [], 0, [], 0)

  /** The ids of the replies among some lines, in order. */
  function Replies(ms: seq<Message>): seq<nat> {
    if ms == [] then [] else ReplyIn(ms[0]) + Replies(ms[1..])
  }

  function ReplyIn(m: Message): seq<nat> {
    if m.Reply? then [m.id] else []
  }

  /** The daemon answers the requests of a connection one by one, in order, each once. */
  predicate InOrder(c: Conn, course: Course) {
    course.Sent? ==>
      var sent, end := c.sent + [c.nextId], c.answered + |Replies(course.arrivals)|;
      end <= |sent| && Replies(course.arrivals) == sent[c.answered..end]
  }

  /** Take lines until one is not a push: the response, or nothing. */
  function Take(ms: seq<Message>): (Option<nat>, seq<Message>) {
    if ms == [] then (None, [])
    else if ms[0].Push? then Take(ms[1..])
    else (if ms[0].Reply? then Some(ms[0].id) else None, ms[1..])
  }

  /** The connection after a call has read from `lines`. */
  function AfterReading(nextId: nat, sent: seq<nat>, answered: nat, lines: seq<Message>, served: nat): (Conn, Option<nat>) {
    var (r, rest) := Take(lines);
    (Conn(nextId, sent, answered, rest, if r.Some? then served + 1 else served), r)
  }

  /** One call. */
  function Call(c: Conn, course: Course): (Conn, Option<nat>) {
    match course
    case Unsent => (c.(nextId := c.nextId + 1), None)
    case Sent(arrivals) =>
      AfterReading(c.nextId + 1, c.sent + [c.nextId], c.answered + |Replies(arrivals)|, c.unread + arrivals, c.served)
  }

  class BlockingClient {
    var nextId: nat
    var unread: seq<Message>

    constructor ()
      ensures nextId == FRESH.nextId && unread == FRESH.unread
    {
      nextId, unread := 1, [];
    }

    /** `call`: the id is used up even when the request cannot be serialised or written. */
    method CallDaemon(course: Course) returns (id: nat, r: Option<nat>)
      modifies this
      ensures id == old(nextId) && nextId == id + 1
      ensures forall c: Conn :: c.nextId == id && c.unread == old(unread) ==>
        nextId == Call(c, course).0.nextId && unread == Call(c, course).0.unread && r == Call(c, course).1
    {
      id := nextId;
      nextId := nextId + 1;
      if course.Unsent? {
        return id, None;
      }
      unread := unread + course.arrivals;
      while unread != []
        invariant nextId == id + 1
        invariant Take(unread) == Take(old(unread) + course.arrivals)
        decreases |unread|
      {
        var m := unread[0];
        unread := unread[1..];
        if !m.Push? {
          r := if m.Reply? then Some(m.id) else None;
          return;
        }
      }
      r := None;
    }
  }

  /* ---- Which response a call gets ---- */

  /** The unread replies are those to the requests from the first one that no response was
      taken for to the last one answered. */
  predicate Inv(c: Conn) {
    && c.served <= c.answered <= |c.sent|
    && Replies(c.unread) == c.sent[c.served..c.answered]
    && forall k :: 0 <= k < |c.sent| ==> c.sent[k] < c.nextId
  }

  lemma {:induction false} RepliesConcat(a: seq<Message>, b: seq<Message>)
    ensures Replies(a + b) == Replies(a) + Replies(b)
  {
    if a == [] {
      assert a + b == b;
    } else {
      var first, others, last := ReplyIn(a[0]), Replies(a[1..]), Replies(b);
      assert Replies(a + b) == first + (others + last) by {
        RepliesConcat(a[1..], b);
        assert (a + b)[0] == a[0] && (a + b)[1..] == a[1..] + b;
      }
      assert first + (others + last) == (first + others) + last;
    }
  }

  /** Taking a response removes the first reply; taking none removes no reply. */
  lemma {:induction false} TakeFirst(ms: seq<Message>)
    ensures var (r, rest) := Take(ms);
      if r.Some? then Replies(ms) == [r.value] + Replies(rest) else Replies(ms) == Replies(rest)
  {
    if ms != [] && ms[0].Push? {
      TakeFirst(ms[1..]);
    }
  }

  lemma SliceTail(s: seq<nat>, i: nat, k: nat, x: nat, tail: seq<nat>)
    requires i <= k <= |s| && s[i..k] == [x] + tail
    ensures i < k && x == s[i] && tail == s[i + 1..k]
  {
    assert ([x] + tail)[0] == x;
    assert tail == ([x] + tail)[1..];
  }

  /** The lines a call may read hold the replies from that request on. */
  lemma {:induction false} RepliesInReach(c: Conn, arrivals: seq<Message>)
    requires Inv(c) && InOrder(c, Sent(arrivals))
    ensures Replies(c.unread + arrivals) == (c.sent + [c.nextId])[c.served..c.answered + |Replies(arrivals)|]
  {
    RepliesConcat(c.unread, arrivals);
    var sent := c.sent + [c.nextId];
    assert c.sent[c.served..c.answered] == sent[c.served..c.answered];
    JoinSlices(sent, c.served, c.answered, c.answered + |Replies(arrivals)|);
  }

  /** Out of replies to `sent[start..end]`, a call takes the first and leaves the others. */
  lemma {:induction false} TakeFromSlice(lines: seq<Message>, sent: seq<nat>, start: nat, end: nat)
    requires start <= end <= |sent| && Replies(lines) == sent[start..end]
    ensures var (r, rest) := Take(lines);
      if r.Some? then start < end && r.value == sent[start] && Replies(rest) == sent[start + 1..end]
      else Replies(rest) == sent[start..end]
  {
    TakeFirst(lines);
    var (r, rest) := Take(lines);
    if r.Some? {
      SliceTail(sent, start, end, r.value, Replies(rest));
    }
  }

  lemma {:induction false} ReadingKeepsInv(nextId: nat, sent: seq<nat>, answered: nat, lines: seq<Message>, served: nat)
    requires served <= answered <= |sent| && Replies(lines) == sent[served..answered]
    requires forall k :: 0 <= k < |sent| ==> sent[k] < nextId
    ensures var (c, r) := AfterReading(nextId, sent, answered, lines, served);
      Inv(c) && (r.Some? ==> served < |sent| && r.value == sent[served])
  {
    TakeFromSlice(lines, sent, served, answered);
  }

  lemma {:induction false} SentCallIsSkewed(c: Conn, sent: seq<nat>, arrivals: seq<Message>, answered: nat)
    requires Inv(c) && InOrder(c, Sent(arrivals)) && sent == c.sent + [c.nextId] && answered == c.answered + |Replies(arrivals)|
    ensures var (c', r) := AfterReading(c.nextId + 1, sent, answered, c.unread + arrivals, c.served);
      Inv(c') && (r.Some? ==> r.value == sent[c.served])
  {
    assert forall k :: 0 <= k < |sent| ==> sent[k] < c.nextId + 1;
    assert Replies(c.unread + arrivals) == sent[c.served..answered] by {
      RepliesInReach(c, arrivals);
    }
    ReadingKeepsInv(c.nextId + 1, sent, answered, c.unread + arrivals, c.served);
  }

  /** A call gets the response to the first request that no response was taken for: as many
      requests before its own as earlier calls sent one and ended without a response. */
  lemma {:induction false} CallIsSkewed(c: Conn, course: Course)
    requires Inv(c) && InOrder(c, course)
    ensures var (c', r) := Call(c, course);
      Inv(c') && (r.Some? ==> r.value == (c.sent + [c.nextId])[|c.sent| - c.Unserved()])
  {
    if course.Sent? {
      SentCallIsSkewed(c, c.sent + [c.nextId], course.arrivals, c.answered + |Replies(course.arrivals)|);
    }
  }

  /* ---- Runs of calls ---- */

  predicate CanRun(c: Conn, courses: seq<Course>)
    decreases |courses|
  {
    courses == [] || (InOrder(c, courses[0]) && CanRun(Call(c, courses[0]).0, courses[1..]))
  }

  function Run(c: Conn, courses: seq<Course>): Conn
    decreases |courses|
  {
    if courses == [] then c else Run(Call(c, courses[0]).0, courses[1..])
  }

  lemma {:induction false} RunKeepsInv(c: Conn, courses: seq<Course>)
    requires Inv(c) && CanRun(c, courses)
    ensures Inv(Run(c, courses))
    decreases |courses|
  {
    if courses != [] {
      CallIsSkewed(c, courses[0]);
      RunKeepsInv(Call(c, courses[0]).0, courses[1..]);
    }
  }

  lemma {:induction false} OwnIffNoneUnserved(c: Conn, next: Course)
    requires Inv(c) && InOrder(c, next)
    ensures var (_, r) := Call(c, next);
      r.Some? ==> (r.value == c.nextId <==> c.Unserved() == 0)
  {
    CallIsSkewed(c, next);
    assert c.served < |c.sent| ==> (c.sent + [c.nextId])[c.served] == c.sent[c.served];
  }

  lemma NothingSentIsInv(c: Conn)
    requires c.sent == [] && c.unread == [] && c.answered == c.served == 0
    ensures Inv(c)
  {
  }

  /** After any run of calls on a new connection, the next call that gets a response gets its
      own one if and only if no earlier call failed after its request was sent. */
  lemma {:induction false} OwnResponseIff(start: Conn, courses: seq<Course>, next: Course)
    requires start == FRESH && CanRun(start, courses) && InOrder(Run(start, courses), next)
    ensures var c := Run(start, courses);
      var (_, r) := Call(c, next);
      r.Some? ==> (r.value == c.nextId <==> c.Unserved() == 0)
  {
    NothingSentIsInv(start);
    RunKeepsInv(start, courses);
    OwnIffNoneUnserved(Run(start, courses), next);
  }

  /** The first call fails and the second reads what the daemon answered.  If the first had
      sent its request, the second gets the first one's response, otherwise its own. */
  lemma FailureThenResponse(wasSent: bool)
    ensures var courses := [if wasSent then Sent([]) else Unsent];
      var lines := if wasSent then [Reply(1), Reply(2)] else [Reply(2)];
      && CanRun(FRESH, courses)
      && Run(FRESH, courses).nextId == 2
      && InOrder(Run(FRESH, courses), Sent(lines))
      && Call(Run(FRESH, courses), Sent(lines)).1 == Some(if wasSent then 1 else 2)
  {
    var courses := [if wasSent then Sent([]) else Unsent];
    var lines := if wasSent then [Reply(1), Reply(2)] else [Reply(2)];
    var c := Call(FRESH, courses[0]).0;
    assert c == if wasSent then Conn(2, [1], 0, [], 0) else Conn(2, [], 0, [], 0);
    assert courses[1..] == [] && CanRun(c, []) && Run(c, []) == c;
    assert [Reply(1), Reply(2)][1..] == [Reply(2)] && [Reply(2)][1..] == [];
    assert Replies([Reply(2)]) == [2] && Replies([Reply(1), Reply(2)]) == [1, 2];
    assert [] + lines == lines;
  }
}
