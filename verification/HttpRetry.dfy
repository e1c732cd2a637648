/** The authenticated HTTP client: one token refresh on 401, exponential backoff on
    429 and 5xx, and everything else returned at once. */
module HttpRetry {
  import opened Prelude

  const MAX_RETRIES: nat := 3

  /** What comes back for one request; `Lost` is a transport error. */
  datatype Reply<+R> = Lost | Got(status: nat, payload: R)

  predicate IsSuccess(status: nat) { 200 <= status < 300 }

  predicate IsServerError(status: nat) { 500 <= status < 600 }

  predicate IsTransient(status: nat) { status == 429 || IsServerError(status) }

  /** The only thing in which the four loops differ. */
  datatype Policy = SuccessOnly | AlsoResume
  {
    predicate Accepts(status: nat) {
      IsSuccess(status) || (AlsoResume? && status == 308)
    }
  }

  /** `CutOff` marks a run whose environment script ended before the loop did. */
  datatype Outcome<+R> = Accepted(status: nat, payload: R) | Rejected(status: nat) | Broken | CutOff

  /** Where a loop stands: the peer's state, the token, and what was spent so far. */
  datatype Progress<+S> = Progress(
    peer: S, token: string, attempt: nat, refreshed: bool, sends: nat, refreshes: nat, backoff: nat)

  datatype Trace<+S, +R> = Trace(at: Progress<S>, outcome: Outcome<R>)

  function Start<S>(s: S, token: string): Progress<S> {
    Progress(s, token, 0, false, 0, 0, 0)
  }

  /** The remote side: state, token and an environment choice to new state and reply. */
  type Peer<!S, !C, !R> = (S, string, C) -> (S, Reply<R>)

  /** A refresher answers its k-th call with a new token or fails. */
  type Refresher = nat -> Option<string>

  /** Two to the power of `attempt`. */
  function Seconds(attempt: nat): nat {
    if attempt == 0 then 1 else 2 * Seconds(attempt - 1)
  }

  datatype Step<+S, +R> = Stop(trace: Trace<S, R>) | Again(next: Progress<S>)

  /** What a loop at `p` does with one reply. */
  function Decide<S, R>(policy: Policy, refresher: Option<Refresher>, p: Progress<S>, s: S, reply: Reply<R>): Step<S, R> {
    var p' := p.(peer := s, sends := p.sends + 1);
    if reply.Lost? then Stop(Trace(p', Broken))
    else if policy.Accepts(reply.status) then Stop(Trace(p', Accepted(reply.status, reply.payload)))
    else
      var asks := reply.status == 401 && !p.refreshed && refresher.Some?;
      var p'' := if asks then p'.(refreshes := p.refreshes + 1) else p';
      if asks && refresher.value(p.refreshes).Some? then
        Again(p''.(token := refresher.value(p.refreshes).value, refreshed := true))
      else if IsTransient(reply.status) && p.attempt < MAX_RETRIES then
        Again(p''.(attempt := p.attempt + 1, backoff := p.backoff + Seconds(p.attempt + 1)))
      else Stop(Trace(p'', Rejected(reply.status)))
  }

  function Advance<S, C, R>(
    policy: Policy, peer: Peer<S, C, R>, refresher: Option<Refresher>, p: Progress<S>, choice: C): Step<S, R>
  {
    var (s, reply) := peer(p.peer, p.token, choice);
    Decide(policy, refresher, p, s, reply)
  }

  /** The retry machine: one environment choice per request. */
  function Machine<S, C, R>(
    policy: Policy, peer: Peer<S, C, R>, refresher: Option<Refresher>, script: seq<C>, p: Progress<S>): (t: Trace<S, R>)
    requires p.sends <= |script|
    ensures p.sends <= t.at.sends <= |script|
    ensures if t.outcome.CutOff? then t.at.sends == |script| else t.at.sends > p.sends
    decreases |script| - p.sends
  {
    if p.sends == |script| then Trace(p, CutOff)
    else
      match Advance(policy, peer, refresher, p, script[p.sends])
      case Stop(t) => t
      case Again(next) => Machine(policy, peer, refresher, script, next)
  }

  /** Requests that a loop at `p` can still make. */
  function Left<S>(p: Progress<S>): int {
    1 + (MAX_RETRIES - p.attempt) + (if p.refreshed then 0 else 1)
  }

  /** Refresh calls and seconds that a loop at `p` can still spend. */
  function LeftToRefresh<S>(p: Progress<S>): nat { if p.refreshed then 0 else 1 }

  function LeftToWait<S>(p: Progress<S>): nat {
    if p.attempt == 0 then 14 else if p.attempt == 1 then 12 else if p.attempt == 2 then 8 else 0
  }

  /** Going round again pays for itself. */
  lemma DecideIsPaid<S, R>(policy: Policy, refresher: Option<Refresher>, p: Progress<S>, s: S, reply: Reply<R>)
    requires p.attempt <= MAX_RETRIES
    ensures var d := Decide(policy, refresher, p, s, reply);
      var q := if d.Stop? then d.trace.at else d.next;
      && q.sends == p.sends + 1
      && q.refreshes + (if d.Stop? then 0 else LeftToRefresh(q)) <= p.refreshes + LeftToRefresh(p)
      && q.backoff + (if d.Stop? then 0 else LeftToWait(q)) <= p.backoff + LeftToWait(p)
      && (d.Again? ==> q.attempt <= MAX_RETRIES && Left(q) + 1 == Left(p))
      && (d.Stop? ==> !d.trace.outcome.CutOff?)
  {
    assert Seconds(0) == 1 && Seconds(1) == 2 && Seconds(2) == 4 && Seconds(3) == 8;
  }

  lemma {:induction false} MachineIsBounded<S, C, R>(
    policy: Policy, peer: Peer<S, C, R>, refresher: Option<Refresher>, script: seq<C>, p: Progress<S>)
    requires p.sends <= |script| && p.attempt <= MAX_RETRIES
    ensures var t := Machine(policy, peer, refresher, script, p);
      && t.at.sends <= p.sends + Left(p)
      && t.at.refreshes <= p.refreshes + LeftToRefresh(p)
      && t.at.backoff <= p.backoff + LeftToWait(p)
      && (|script| >= p.sends + Left(p) ==> !t.outcome.CutOff?)
    decreases |script| - p.sends
  {
    if p.sends < |script| {
      var (s, reply) := peer(p.peer, p.token, script[p.sends]);
      var d := Decide(policy, refresher, p, s, reply);
      assert d == Advance(policy, peer, refresher, p, script[p.sends]);
      DecideIsPaid(policy, refresher, p, s, reply);
      if d.Again? {
        MachineIsBounded(policy, peer, refresher, script, d.next);
      }
    }
  }

  /** Every call makes at most five requests, one refresh and 14 seconds of waiting,
      and five environment choices are enough for it to finish. */
  lemma CallIsBounded<S, C, R>(
    policy: Policy, peer: Peer<S, C, R>, refresher: Option<Refresher>, script: seq<C>, s: S, token: string)
    ensures var t := Machine(policy, peer, refresher, script, Start(s, token));
      t.at.sends <= 5 && t.at.refreshes <= 1 && t.at.backoff <= 14 && (|script| >= 5 ==> !t.outcome.CutOff?)
  {
    MachineIsBounded(policy, peer, refresher, script, Start(s, token));
  }

  /** What every request keeps, the whole loop keeps; and an accepted reply speaks of
      the state the peer is left in. */
  lemma {:induction false} MachineKeeps<S(!new), C(!new), R(!new)>(
    policy: Policy, peer: Peer<S, C, R>, refresher: Option<Refresher>, script: seq<C>, p: Progress<S>,
    inv: S -> bool, says: (S, nat, R) -> bool)
    requires p.sends <= |script| && inv(p.peer)
    requires forall s, token, c :: inv(s) && c in script ==> Keeps(policy, peer(s, token, c), inv, says)
    ensures var t := Machine(policy, peer, refresher, script, p);
      && inv(t.at.peer)
      && (t.outcome.Accepted? ==> policy.Accepts(t.outcome.status) && says(t.at.peer, t.outcome.status, t.outcome.payload))
    decreases |script| - p.sends
  {
    if p.sends < |script| {
      var (s, reply) := peer(p.peer, p.token, script[p.sends]);
      assert Keeps(policy, (s, reply), inv, says);
      var d := Decide(policy, refresher, p, s, reply);
      assert d == Advance(policy, peer, refresher, p, script[p.sends]);
      if d.Again? {
        MachineKeeps(policy, peer, refresher, script, d.next, inv, says);
      }
    }
  }

  /** What every request establishes, a call that made a request has established. */
  lemma MachineReaches<S(!new), C(!new), R(!new)>(
    policy: Policy, peer: Peer<S, C, R>, refresher: Option<Refresher>, script: seq<C>, p: Progress<S>,
    inv: S -> bool, says: (S, nat, R) -> bool)
    requires p.sends < |script|
    requires forall s, token, c :: (s == p.peer || inv(s)) && c in script ==> Keeps(policy, peer(s, token, c), inv, says)
    ensures var t := Machine(policy, peer, refresher, script, p);
      && inv(t.at.peer)
      && (t.outcome.Accepted? ==> policy.Accepts(t.outcome.status) && says(t.at.peer, t.outcome.status, t.outcome.payload))
  {
    var (s, reply) := peer(p.peer, p.token, script[p.sends]);
    assert Keeps(policy, (s, reply), inv, says);
    var d := Decide(policy, refresher, p, s, reply);
    assert d == Advance(policy, peer, refresher, p, script[p.sends]);
    if d.Again? {
      MachineKeeps(policy, peer, refresher, script, d.next, inv, says);
    }
  }

  /** The reply is an accepted one and satisfies `good`. */
  predicate AcceptedAs<R>(policy: Policy, reply: Reply<R>, good: (nat, R) -> bool) {
    reply.Got? && policy.Accepts(reply.status) && good(reply.status, reply.payload)
  }

  /** If the peer's state tells whether it ever gave a good accepted reply, then it tells so
      after the call exactly when it did before or the call ended with one. */
  lemma {:induction false} MachineRecords<S(!new), C(!new), R(!new)>(
    policy: Policy, peer: Peer<S, C, R>, refresher: Option<Refresher>, script: seq<C>, p: Progress<S>,
    gave: S -> bool, good: (nat, R) -> bool)
    requires p.sends <= |script|
    requires forall s, token, c :: Records(policy, s, peer(s, token, c), gave, good)
    ensures var t := Machine(policy, peer, refresher, script, p);
      gave(t.at.peer) <==> gave(p.peer) || (t.outcome.Accepted? && good(t.outcome.status, t.outcome.payload))
    decreases |script| - p.sends
  {
    if p.sends < |script| {
      var (s, reply) := peer(p.peer, p.token, script[p.sends]);
      assert Records(policy, p.peer, (s, reply), gave, good);
      var d := Decide(policy, refresher, p, s, reply);
      assert d == Advance(policy, peer, refresher, p, script[p.sends]);
      if d.Again? {
        MachineRecords(policy, peer, refresher, script, d.next, gave, good);
      }
    }
  }

  predicate Records<S, R>(policy: Policy, s: S, step: (S, Reply<R>), gave: S -> bool, good: (nat, R) -> bool) {
    gave(step.0) <==> gave(s) || AcceptedAs(policy, step.1, good)
  }

  predicate Keeps<S, R>(policy: Policy, step: (S, Reply<R>), inv: S -> bool, says: (S, nat, R) -> bool) {
    && inv(step.0)
    && (step.1.Got? && policy.Accepts(step.1.status) ==> says(step.0, step.1.status, step.1.payload))
  }

  /* ---- The loop against a rule on the replies so far ---- */

  /** One request of a call: the token it carried and the reply. */
  datatype Exchanged<+R> = Exchanged(token: string, reply: Reply<R>)

  /** The requests of a call from `p` on. */
  function Log<S, C, R>(
    policy: Policy, peer: Peer<S, C, R>, refresher: Option<Refresher>, script: seq<C>, p: Progress<S>): seq<Exchanged<R>>
    requires p.sends <= |script|
    decreases |script| - p.sends
  {
    if p.sends == |script| then []
    else
      [Exchanged(p.token, peer(p.peer, p.token, script[p.sends]).1)]
      + match Advance(policy, peer, refresher, p, script[p.sends])
        case Stop(_) => []
        case Again(next) => Log(policy, peer, refresher, script, next)
  }

  predicate Busy<R>(reply: Reply<R>) {
    reply.Got? && (reply.status == 429 || 500 <= reply.status <= 599)
  }

  predicate Unauthorised<R>(reply: Reply<R>) {
    reply.Got? && reply.status == 401
  }

  predicate Final<R>(policy: Policy, reply: Reply<R>) {
    reply.Got? && (200 <= reply.status <= 299 || (policy.AlsoResume? && reply.status == 308))
  }

  /** How many of the replies were 429 or 5xx, and whether one was 401. */
  function BusyCount<R>(log: seq<Exchanged<R>>): nat {
    if log == [] then 0 else BusyCount(log[..|log| - 1]) + if Busy(log[|log| - 1].reply) then 1 else 0
  }

  predicate WasUnauthorised<R>(log: seq<Exchanged<R>>) {
    exists k :: 0 <= k < |log| && Unauthorised(log[k].reply)
  }

  predicate CanRenew(refresher: Option<Refresher>) {
    refresher.Some? && refresher.value(0).Some?
  }

  /** The rule: after the replies in `log` and now this one, the call makes another request. */
  predicate GoesOn<R>(refresher: Option<Refresher>, log: seq<Exchanged<R>>, reply: Reply<R>) {
    || (Busy(reply) && BusyCount(log) < 3)
    || (Unauthorised(reply) && !WasUnauthorised(log) && CanRenew(refresher))
  }

  /** The token of the next request: renewed by the first 401. */
  function TokenFor<R>(refresher: Option<Refresher>, token: string, log: seq<Exchanged<R>>): string {
    if WasUnauthorised(log) && CanRenew(refresher) then refresher.value(0).value else token
  }

  function SecondsWaited(retries: nat): nat {
    if retries == 0 then 0 else if retries == 1 then 2 else if retries == 2 then 6 else 14
  }

  /** A call that made the requests in `log` followed the rule at each of them. */
  predicate FollowsRule<R>(refresher: Option<Refresher>, token: string, log: seq<Exchanged<R>>) {
    forall k :: 0 <= k < |log| ==>
      && log[k].token == TokenFor(refresher, token, log[..k])
      && (k + 1 < |log| ==> GoesOn(refresher, log[..k], log[k].reply))
  }

  /** What the last reply makes of the call. */
  ghost predicate EndsAs<S, R>(policy: Policy, refresher: Option<Refresher>, log: seq<Exchanged<R>>, t: Trace<S, R>) {
    if log == [] then t.outcome.CutOff?
    else
      var earlier, last := log[..|log| - 1], log[|log| - 1].reply;
      && t.at.backoff == SecondsWaited(BusyCount(if t.outcome.CutOff? then log else earlier))
      && match t.outcome
         case CutOff => GoesOn(refresher, earlier, last)
         case Broken => last.Lost?
         case Accepted(status, payload) => Final(policy, last) && last == Got(status, payload)
         case Rejected(status) =>
           last.Got? && last.status == status && !Final(policy, last) && !GoesOn(refresher, earlier, last)
  }

  /** The counters of a loop tell the replies before them. */
  predicate Tracks<S, R>(refresher: Option<Refresher>, token: string, p: Progress<S>, log: seq<Exchanged<R>>) {
    && p.sends == |log| && p.attempt == BusyCount(log) <= 3
    && (p.refreshed <==> WasUnauthorised(log)) && (p.refreshed ==> CanRenew(refresher))
    && p.refreshes == (if p.refreshed then 1 else 0)
    && p.token == TokenFor(refresher, token, log)
    && p.backoff == SecondsWaited(BusyCount(log))
  }

  lemma WasUnauthorisedSnoc<R>(log: seq<Exchanged<R>>, x: Exchanged<R>)
    ensures WasUnauthorised(log + [x]) <==> WasUnauthorised(log) || Unauthorised(x.reply)
    ensures BusyCount(log + [x]) == BusyCount(log) + if Busy(x.reply) then 1 else 0
  {
    var all := log + [x];
    assert all[..|log|] == log && all[|log|] == x;
    if k :| 0 <= k < |log| && Unauthorised(log[k].reply) {
      assert all[k] == log[k];
    }
  }

  /** One reply: the loop goes on exactly when the rule says so, and its counters keep track. */
  lemma DecideFollowsRule<S, R>(
    policy: Policy, refresher: Option<Refresher>, token: string, p: Progress<S>, s: S, reply: Reply<R>, log: seq<Exchanged<R>>)
    requires Tracks(refresher, token, p, log)
    ensures var d := Decide(policy, refresher, p, s, reply);
      var log' := log + [Exchanged(p.token, reply)];
      if d.Again? then GoesOn(refresher, log, reply) && Tracks(refresher, token, d.next, log')
      else !d.trace.outcome.CutOff? && EndsAs(policy, refresher, log', d.trace)
  {
    var x := Exchanged(p.token, reply);
    WasUnauthorisedSnoc(log, x);
    assert (log + [x])[..|log|] == log;
    assert Seconds(1) == 2 && Seconds(2) == 4 && Seconds(3) == 8 by {
      assert Seconds(0) == 1;
    }
  }

  lemma FollowsRuleSnoc<R>(refresher: Option<Refresher>, token: string, log: seq<Exchanged<R>>, x: Exchanged<R>)
    requires FollowsRule(refresher, token, log) && x.token == TokenFor(refresher, token, log)
    requires log != [] ==> GoesOn(refresher, log[..|log| - 1], log[|log| - 1].reply)
    ensures FollowsRule(refresher, token, log + [x])
  {
    var all := log + [x];
    forall k | 0 <= k < |all|
      ensures all[k].token == TokenFor(refresher, token, all[..k]) && (k + 1 < |all| ==> GoesOn(refresher, all[..k], all[k].reply))
    {
      assert all[..k] == log[..k];
      assert k == |log| ==> log[..k] == log;
    }
  }

  /** The requests of a call and how it ended follow the rule. */
  ghost predicate Lawful<S, R>(policy: Policy, refresher: Option<Refresher>, token: string, log: seq<Exchanged<R>>, t: Trace<S, R>) {
    |log| == t.at.sends && FollowsRule(refresher, token, log) && EndsAs(policy, refresher, log, t)
  }

  /** The requests before the next one: the rule was followed, and it said to go on. */
  predicate GoneOn<R>(refresher: Option<Refresher>, token: string, log: seq<Exchanged<R>>) {
    && FollowsRule(refresher, token, log)
    && (log != [] ==> GoesOn(refresher, log[..|log| - 1], log[|log| - 1].reply))
  }

  lemma LogStep<S, C, R>(
    policy: Policy, peer: Peer<S, C, R>, refresher: Option<Refresher>, script: seq<C>, p: Progress<S>, log: seq<Exchanged<R>>)
    requires p.sends < |script|
    ensures var x := Exchanged(p.token, peer(p.peer, p.token, script[p.sends]).1);
      var d := Advance(policy, peer, refresher, p, script[p.sends]);
      log + Log(policy, peer, refresher, script, p)
        == if d.Again? then (log + [x]) + Log(policy, peer, refresher, script, d.next) else log + [x]
  {
    var x := Exchanged(p.token, peer(p.peer, p.token, script[p.sends]).1);
    var d := Advance(policy, peer, refresher, p, script[p.sends]);
    if d.Again? {
      Regroup(log, [x], Log(policy, peer, refresher, script, d.next));
    } else {
      assert [x] + [] == [x];
    }
  }

  lemma {:induction false} MachineFollowsRule<S, C, R>(
    policy: Policy, peer: Peer<S, C, R>, refresher: Option<Refresher>, script: seq<C>, p: Progress<S>,
    token: string, log: seq<Exchanged<R>>)
    requires p.sends <= |script| && Tracks(refresher, token, p, log) && GoneOn(refresher, token, log)
    ensures Lawful(policy, refresher, token, log + Log(policy, peer, refresher, script, p), Machine(policy, peer, refresher, script, p))
    decreases |script| - p.sends
  {
    if p.sends == |script| {
      assert log + [] == log;
    } else {
      var (s, reply) := peer(p.peer, p.token, script[p.sends]);
      var more := log + [Exchanged(p.token, reply)];
      var d := Decide(policy, refresher, p, s, reply);
      assert d == Advance(policy, peer, refresher, p, script[p.sends]);
      LogStep(policy, peer, refresher, script, p, log);
      OneMoreRequest(policy, refresher, token, p, s, reply, log);
      if d.Again? {
        MachineFollowsRule(policy, peer, refresher, script, d.next, token, more);
      }
    }
  }

  lemma OneMoreRequest<S, R>(
    policy: Policy, refresher: Option<Refresher>, token: string, p: Progress<S>, s: S, reply: Reply<R>, log: seq<Exchanged<R>>)
    requires Tracks(refresher, token, p, log) && GoneOn(refresher, token, log)
    ensures var d := Decide(policy, refresher, p, s, reply);
      var more := log + [Exchanged(p.token, reply)];
      if d.Again? then Tracks(refresher, token, d.next, more) && GoneOn(refresher, token, more)
      else Lawful(policy, refresher, token, more, d.trace)
  {
    var x := Exchanged(p.token, reply);
    DecideFollowsRule(policy, refresher, token, p, s, reply, log);
    FollowsRuleSnoc(refresher, token, log, x);
    assert (log + [x])[..|log|] == log;
  }

  /** Every call against its replies: it makes another request exactly after a 429 or 5xx, up to
      three times, and after the first 401 that renews the token, which the requests from then
      on carry; its outcome is that of the last reply, and its waiting 0, 2, 6 or 14 seconds. */
  lemma CallFollowsRule<S, C, R>(
    policy: Policy, peer: Peer<S, C, R>, refresher: Option<Refresher>, script: seq<C>, s: S, token: string)
    ensures var t := Machine(policy, peer, refresher, script, Start(s, token));
      var log := Log(policy, peer, refresher, script, Start(s, token));
      Lawful(policy, refresher, token, log, t)
  {
    var none: seq<Exchanged<R>> := [];
    var p := Start(s, token);
    MachineFollowsRule(policy, peer, refresher, script, p, token, none);
    assert none + Log(policy, peer, refresher, script, p) == Log(policy, peer, refresher, script, p);
  }

  /** A call is rejected with a status exactly when that of its last reply is not accepted and
      either is neither 429 nor 5xx and renews no token, or comes after three retries. */
  lemma RejectedIff<S, C, R>(
    policy: Policy, peer: Peer<S, C, R>, refresher: Option<Refresher>, script: seq<C>, s: S, token: string, status: nat)
    ensures var t := Machine(policy, peer, refresher, script, Start(s, token));
      var log := Log(policy, peer, refresher, script, Start(s, token));
      t.outcome == Rejected(status) <==>
        && log != [] && var earlier, last := log[..|log| - 1], log[|log| - 1].reply;
           && last.Got? && last.status == status
           && !(200 <= status <= 299) && !(policy.AlsoResume? && status == 308)
           && (if status == 429 || 500 <= status <= 599 then BusyCount(earlier) >= 3
               else status == 401 ==> WasUnauthorised(earlier) || !CanRenew(refresher))
  {
    CallFollowsRule(policy, peer, refresher, script, s, token);
  }

  /** A peer that gives the replies of the script. */
  function Replay<R>(): Peer<(), Reply<R>, R> {
    (s: (), token: string, reply: Reply<R>) => (s, reply)
  }

  lemma {:induction false} RetriesFrom<R>(policy: Policy, refresher: Option<Refresher>, replies: seq<Reply<R>>, n: nat, p: Progress<()>)
    requires p.sends <= n <= 3 && n < |replies| && p.attempt == p.sends && p.backoff == SecondsWaited(p.sends)
    requires forall k :: 0 <= k < n ==> Busy(replies[k])
    requires Final(policy, replies[n])
    ensures var t := Machine(policy, Replay(), refresher, replies, p);
      t.outcome == Accepted(replies[n].status, replies[n].payload) && t.at.sends == n + 1 && t.at.backoff == SecondsWaited(n)
    decreases n - p.sends
  {
    assert Seconds(1) == 2 && Seconds(2) == 4 && Seconds(3) == 8 by {
      assert Seconds(0) == 1;
    }
    if p.sends < n {
      var d := Decide(policy, refresher, p, p.peer, replies[p.sends]);
      assert d == Advance(policy, Replay(), refresher, p, replies[p.sends]);
      RetriesFrom(policy, refresher, replies, n, d.next);
    }
  }

  /** Up to three replies 429 or 5xx, in any mixture, cost a retry each: the accepted reply after
      them is the outcome, after 0, 2, 6 or 14 seconds. */
  lemma BusyServerIsRetried<R>(policy: Policy, refresher: Option<Refresher>, replies: seq<Reply<R>>, n: nat, token: string)
    requires n <= 3 && n < |replies|
    requires forall k :: 0 <= k < n ==>
      replies[k].Got? && (replies[k].status == 429 || 500 <= replies[k].status <= 599)
    requires replies[n].Got? && (200 <= replies[n].status <= 299 || (policy.AlsoResume? && replies[n].status == 308))
    ensures var t := Machine(policy, Replay(), refresher, replies, Start((), token));
      && t.outcome == Accepted(replies[n].status, replies[n].payload) && t.at.sends == n + 1
      && t.at.backoff == [0, 2, 6, 14][n]
  {
    RetriesFrom(policy, refresher, replies, n, Start((), token));
  }

  /** One client per account.  Each loop below is written as in the program; all four
      are the same machine. */
  class DriveClient {
    var accessToken: string
    const refresher: Option<Refresher>

    constructor (accessToken: string, refresher: Option<Refresher>)
      ensures this.accessToken == accessToken && this.refresher == refresher
    {
      this.accessToken, this.refresher := accessToken, refresher;
    }

    /** Deserialises the body of an accepted reply. */
    method ExecuteJson<S, C, R, J>(peer: Peer<S, C, R>, s: S, script: seq<C>, parse: R -> Option<J>) returns (t: Trace<S, R>, value: Option<J>)
      modifies this
      ensures t == Machine(SuccessOnly, peer, refresher, script, Start(s, old(accessToken)))
      ensures accessToken == t.at.token
      ensures value == if t.outcome.Accepted? then parse(t.outcome.payload) else None
    {
      var p := Start(s, accessToken);
      ghost var whole := Machine(SuccessOnly, peer, refresher, script, p);
      while p.sends < |script|
        invariant p.sends <= |script| && accessToken == p.token
        invariant whole == Machine(SuccessOnly, peer, refresher, script, p)
        decreases |script| - p.sends
      {
        var (s', reply) := peer(p.peer, accessToken, script[p.sends]);
        ghost var step := Decide(SuccessOnly, refresher, p, s', reply);
        assert step == Advance(SuccessOnly, peer, refresher, p, script[p.sends]);
        p := p.(peer := s', sends := p.sends + 1);
        if reply.Lost? {
          return Trace(p, Broken), None;
        }
        if IsSuccess(reply.status) {
          return Trace(p, Accepted(reply.status, reply.payload)), parse(reply.payload);
        }
        if reply.status == 401 && !p.refreshed && refresher.Some? {
          var renewed := refresher.value(p.refreshes);
          p := p.(refreshes := p.refreshes + 1);
          if renewed.Some? {
            accessToken := renewed.value;
            p := p.(token := accessToken, refreshed := true);
            assert step == Again(p);
            continue;
          }
        }
        if IsTransient(reply.status) && p.attempt < MAX_RETRIES {
          p := p.(attempt := p.attempt + 1, backoff := p.backoff + Seconds(p.attempt + 1));
          assert step == Again(p);
          continue;
        }
        return Trace(p, Rejected(reply.status)), None;
      }
      return Trace(p, CutOff), None;
    }

    /** Success needs no body. */
    method ExecuteNoContent<S, C, R>(peer: Peer<S, C, R>, s: S, script: seq<C>) returns (t: Trace<S, R>)
      modifies this
      ensures t == Machine(SuccessOnly, peer, refresher, script, Start(s, old(accessToken)))
      ensures accessToken == t.at.token
    {
      var p := Start(s, accessToken);
      ghost var whole := Machine(SuccessOnly, peer, refresher, script, p);
      while p.sends < |script|
        invariant p.sends <= |script| && accessToken == p.token
        invariant whole == Machine(SuccessOnly, peer, refresher, script, p)
        decreases |script| - p.sends
      {
        var (s', reply) := peer(p.peer, accessToken, script[p.sends]);
        ghost var step := Decide(SuccessOnly, refresher, p, s', reply);
        assert step == Advance(SuccessOnly, peer, refresher, p, script[p.sends]);
        p := p.(peer := s', sends := p.sends + 1);
        if reply.Lost? {
          return Trace(p, Broken);
        }
        if IsSuccess(reply.status) {
          return Trace(p, Accepted(reply.status, reply.payload));
        }
        if reply.status == 401 && !p.refreshed && refresher.Some? {
          var renewed := refresher.value(p.refreshes);
          p := p.(refreshes := p.refreshes + 1);
          if renewed.Some? {
            accessToken := renewed.value;
            p := p.(token := accessToken, refreshed := true);
            assert step == Again(p);
            continue;
          }
        }
        if IsTransient(reply.status) && p.attempt < MAX_RETRIES {
          p := p.(attempt := p.attempt + 1, backoff := p.backoff + Seconds(p.attempt + 1));
          assert step == Again(p);
          continue;
        }
        return Trace(p, Rejected(reply.status));
      }
      return Trace(p, CutOff);
    }

    /** The reply goes to the caller for streaming. */
    method ExecuteRaw<S, C, R>(peer: Peer<S, C, R>, s: S, script: seq<C>) returns (t: Trace<S, R>)
      modifies this
      ensures t == Machine(SuccessOnly, peer, refresher, script, Start(s, old(accessToken)))
      ensures accessToken == t.at.token
    {
      var p := Start(s, accessToken);
      ghost var whole := Machine(SuccessOnly, peer, refresher, script, p);
      while p.sends < |script|
        invariant p.sends <= |script| && accessToken == p.token
        invariant whole == Machine(SuccessOnly, peer, refresher, script, p)
        decreases |script| - p.sends
      {
        var (s', reply) := peer(p.peer, accessToken, script[p.sends]);
        ghost var step := Decide(SuccessOnly, refresher, p, s', reply);
        assert step == Advance(SuccessOnly, peer, refresher, p, script[p.sends]);
        p := p.(peer := s', sends := p.sends + 1);
        if reply.Lost? {
          return Trace(p, Broken);
        }
        if IsSuccess(reply.status) {
          return Trace(p, Accepted(reply.status, reply.payload));
        }
        if reply.status == 401 && !p.refreshed && refresher.Some? {
          var renewed := refresher.value(p.refreshes);
          p := p.(refreshes := p.refreshes + 1);
          if renewed.Some? {
            accessToken := renewed.value;
            p := p.(token := accessToken, refreshed := true);
            assert step == Again(p);
            continue;
          }
        }
        if IsTransient(reply.status) && p.attempt < MAX_RETRIES {
          p := p.(attempt := p.attempt + 1, backoff := p.backoff + Seconds(p.attempt + 1));
          assert step == Again(p);
          continue;
        }
        return Trace(p, Rejected(reply.status));
      }
      return Trace(p, CutOff);
    }

    /** As `ExecuteRaw`, but 308 is an answer too: it means "resume incomplete". */
    method ExecuteRawNoRedirect<S, C, R>(peer: Peer<S, C, R>, s: S, script: seq<C>) returns (t: Trace<S, R>)
      modifies this
      ensures t == Machine(AlsoResume, peer, refresher, script, Start(s, old(accessToken)))
      ensures accessToken == t.at.token
    {
      var p := Start(s, accessToken);
      ghost var whole := Machine(AlsoResume, peer, refresher, script, p);
      while p.sends < |script|
        invariant p.sends <= |script| && accessToken == p.token
        invariant whole == Machine(AlsoResume, peer, refresher, script, p)
        decreases |script| - p.sends
      {
        var (s', reply) := peer(p.peer, accessToken, script[p.sends]);
        ghost var step := Decide(AlsoResume, refresher, p, s', reply);
        assert step == Advance(AlsoResume, peer, refresher, p, script[p.sends]);
        p := p.(peer := s', sends := p.sends + 1);
        if reply.Lost? {
          return Trace(p, Broken);
        }
        if IsSuccess(reply.status) || reply.status == 308 {
          return Trace(p, Accepted(reply.status, reply.payload));
        }
        if reply.status == 401 && !p.refreshed && refresher.Some? {
          var renewed := refresher.value(p.refreshes);
          p := p.(refreshes := p.refreshes + 1);
          if renewed.Some? {
            accessToken := renewed.value;
            p := p.(token := accessToken, refreshed := true);
            assert step == Again(p);
            continue;
          }
        }
        if IsTransient(reply.status) && p.attempt < MAX_RETRIES {
          p := p.(attempt := p.attempt + 1, backoff := p.backoff + Seconds(p.attempt + 1));
          assert step == Again(p);
          continue;
        }
        return Trace(p, Rejected(reply.status));
      }
      return Trace(p, CutOff);
    }
  }
}
