/** Whole runs of the sync queue: arrivals, handler calls on the task the scheduler
    chose, and crash recoveries, in any order. */
module TaskRuns {
  import opened Prelude
  import opened TaskQueue

  datatype Event =
    | Arrival(task: SyncTask)
    | Pick(id: nat, attempt: Attempt)
    | Recovery

  /** The queue plus what an observer counts: on how many picks of each task
      something was written to its row, its retry count on arrival, and the recoveries. */
  datatype Sys = Sys(rows: Rows, attempts: seq<nat>, born: seq<int>, recoveries: nat)

  predicate WellSized(s: Sys) {
    |s.attempts| == |s.rows| == |s.born|
  }

  predicate CanStep(s: Sys, e: Event) {
    match e
    case Arrival(task) => task.status.Pending?
    case Pick(id, _) => IsNext(s.rows, id)
    case Recovery => true
  }

  function Step(s: Sys, e: Event): (s': Sys)
    requires WellSized(s) && CanStep(s, e)
    ensures WellSized(s')
  {
    match e
    case Arrival(task) => Sys(s.rows + [task], s.attempts + [0], s.born + [task.retryCount], s.recoveries)
    case Pick(id, a) =>
      s.(rows := AfterAttempt(s.rows, id, a),
         attempts := if a.Deferred? then s.attempts else s.attempts[id := s.attempts[id] + 1])
    case Recovery => s.(rows := Recovered(s.rows), recoveries := s.recoveries + 1)
  }

  predicate CanRun(s: Sys, es: seq<Event>)
    requires WellSized(s)
    decreases |es|
  {
    es == [] || (CanStep(s, es[0]) && CanRun(Step(s, es[0]), es[1..]))
  }

  function Run(s: Sys, es: seq<Event>): (s': Sys)
    requires WellSized(s) && CanRun(s, es)
    ensures WellSized(s')
    decreases |es|
  {
    if es == [] then s else Run(Step(s, es[0]), es[1..])
  }

  const EMPTY: Sys := Sys([], [], [], 0)

  /* ---- The engine's loop ---- */

  const TASKS_PER_TURN: nat := 10

  /** What an observer who starts now sees. */
  function Watch(rows: Rows): (s: Sys)
    ensures WellSized(s)
  {
    Sys(rows, seq(|rows|, _ => 0), seq(|rows|, k requires 0 <= k < |rows| => rows[k].retryCount), 0)
  }

  lemma {:induction false} RunSnoc(s: Sys, es: seq<Event>, e: Event)
    requires WellSized(s) && CanRun(s, es) && CanStep(Run(s, es), e)
    ensures CanRun(s, es + [e]) && Run(s, es + [e]) == Step(Run(s, es), e)
    decreases |es|
  {
    if es == [] {
      assert [e][1..] == [] && es + [e] == [e];
    } else {
      assert (es + [e])[1..] == es[1..] + [e] && (es + [e])[0] == es[0];
      RunSnoc(Step(s, es[0]), es[1..], e);
    }
  }

  /** One turn of the engine is a run of at most ten picks; it stops earlier only when
      nothing is pending. */
  method ProcessPendingTasks(q: SyncQueue, envs: seq<TurnEnv>) returns (es: seq<Event>)
    requires |envs| == TASKS_PER_TURN
    modifies q
    ensures |es| <= 10 && forall k :: 0 <= k < |es| ==> es[k].Pick?
    ensures CanRun(Watch(old(q.rows)), es) && Run(Watch(old(q.rows)), es).rows == q.rows
    ensures |es| < 10 ==> forall j :: 0 <= j < |q.rows| ==> !q.rows[j].status.Pending?
  {
    es := [];
    ghost var s := Watch(q.rows);
    for k := 0 to TASKS_PER_TURN
      invariant |es| == k && forall j :: 0 <= j < k ==> es[j].Pick?
      invariant CanRun(s, es) && Run(s, es).rows == q.rows
    {
      var next := q.NextPendingTask();
      if next.None? {
        return;
      }
      var e := Pick(next.value, TurnOutcome(q.rows[next.value], envs[k]));
      RunSnoc(s, es, e);
      q.ProcessTask(next.value, envs[k]);
      es := es + [e];
    }
  }

  /* ---- Bounded attempts ---- */

  predicate RowInv(t: SyncTask, attempts: nat, born: int, recoveries: nat) {
    && born <= t.retryCount <= Max(born, MAX_RETRIES)
    && attempts <= t.retryCount - born + recoveries + (if t.status.Pending? then 0 else 1)
    && (t.status.Failed? ==> t.retryCount >= MAX_RETRIES)
  }

  predicate Inv(s: Sys) {
    && WellSized(s)
    && forall i :: 0 <= i < |s.rows| ==> RowInv(s.rows[i], s.attempts[i], s.born[i], s.recoveries)
  }

  lemma StepKeepsInv(s: Sys, e: Event)
    requires Inv(s) && CanStep(s, e)
    ensures Inv(Step(s, e))
  {
  }

  lemma {:induction false} RunKeepsInv(s: Sys, es: seq<Event>)
    requires Inv(s) && CanRun(s, es)
    ensures Inv(Run(s, es))
    decreases |es|
  {
    if es != [] {
      StepKeepsInv(s, es[0]);
      RunKeepsInv(Step(s, es[0]), es[1..]);
    }
  }

  /** How often a run recovers, and on how many of its picks of task `i` something is written. */
  function Recoveries(es: seq<Event>): nat {
    if es == [] then 0 else (if es[0].Recovery? then 1 else 0) + Recoveries(es[1..])
  }

  function AttemptsOf(es: seq<Event>, i: nat): nat {
    if es == [] then 0
    else (if es[0].Pick? && es[0].id == i && es[0].attempt != Deferred then 1 else 0) + AttemptsOf(es[1..], i)
  }

  /** The observer counts events. */
  lemma {:induction false} ObserverCounts(s: Sys, es: seq<Event>, i: nat)
    requires WellSized(s) && CanRun(s, es) && i < |Run(s, es).rows|
    ensures Run(s, es).recoveries == s.recoveries + Recoveries(es)
    ensures Run(s, es).attempts[i] == (if i < |s.rows| then s.attempts[i] else 0) + AttemptsOf(es, i)
    decreases |es|
  {
    if es != [] {
      ObserverCounts(Step(s, es[0]), es[1..], i);
    }
  }

  /** From an empty queue, every task is attempted a bounded number of times, counting the
      picks on which something is written to its row: a task that arrived with retry count 0
      at most four times plus once per recovery.  A failed task has used its three retries. */
  lemma AttemptsAreBounded(es: seq<Event>, i: nat)
    requires CanRun(EMPTY, es) && i < |Run(EMPTY, es).rows|
    ensures var s := Run(EMPTY, es);
      && AttemptsOf(es, i) <= Max(s.born[i], 3) - s.born[i] + 1 + Recoveries(es)
      && (s.born[i] == 0 ==> AttemptsOf(es, i) <= 4 + Recoveries(es))
      && (s.rows[i].status.Failed? ==> s.rows[i].retryCount >= 3) && !s.rows[i].IsRetryable(3)
      && forall limit :: s.rows[i].IsRetryable(limit) <==> s.rows[i].status.Failed? && s.rows[i].retryCount < limit
  {
    RunKeepsInv(EMPTY, es);
    ObserverCounts(EMPTY, es, i);
  }

  /* ---- Nothing is lost ---- */

  /** `b` is `a` later in its life: same identity and place in the order, and
      unchanged once terminal. */
  predicate Later(a: SyncTask, b: SyncTask) {
    && b == a.(status := b.status, retryCount := b.retryCount)
    && a.retryCount <= b.retryCount
    && (a.status.Completed? || a.status.Failed? ==> b == a)
  }

  predicate Grows(a: Rows, b: Rows) {
    |a| <= |b| && forall i :: 0 <= i < |a| ==> Later(a[i], b[i])
  }

  lemma {:induction false} NoTaskIsLost(s: Sys, es: seq<Event>)
    requires WellSized(s) && CanRun(s, es)
    ensures Grows(s.rows, Run(s, es).rows)
    decreases |es|
  {
    if es != [] {
      var mid := Step(s, es[0]);
      assert Grows(s.rows, mid.rows);
      NoTaskIsLost(mid, es[1..]);
    }
  }

  /** A task is terminal exactly when nothing that can happen to the queue changes it. */
  lemma TerminalIffFinal(t: SyncTask)
    ensures t.IsTerminal() <==> forall e :: CanStep(Watch([t]), e) ==> Step(Watch([t]), e).rows[0] == t
  {
    var s := Watch([t]);
    if t.status.Pending? {
      assert CanStep(s, Pick(0, Abandoned)) && Step(s, Pick(0, Abandoned)).rows[0] != t;
    } else if t.status.InProgress? {
      assert CanStep(s, Recovery) && Step(s, Recovery).rows[0] != t;
    }
  }

  /* ---- Waiting is bounded ---- */

  /** Picks that a competitor `u` can still win before it stops being pending. */
  function Credit(u: SyncTask): nat {
    if u.ShouldGiveUp(MAX_RETRIES) then 1 else MAX_RETRIES + 1 - u.retryCount
  }

  predicate Competes(rows: Rows, i: nat, j: nat)
    requires i < |rows| && j < |rows|
  {
    j != i && rows[j].status.Pending? && NotAfter(rows[j], rows[i])
  }

  /** Total credit of the competitors of task `i` among the first `n` rows. */
  function Ahead(rows: Rows, i: nat, n: nat): nat
    requires i < |rows| && n <= |rows|
  {
    if n == 0 then 0
    else Ahead(rows, i, n - 1) + if Competes(rows, i, n - 1) then Credit(rows[n - 1]) else 0
  }

  function Competitors(rows: Rows, i: nat, n: nat): nat
    requires i < |rows| && n <= |rows|
  {
    if n == 0 then 0
    else Competitors(rows, i, n - 1) + if Competes(rows, i, n - 1) then 1 else 0
  }

  /** Task `i` untouched, everyone else's credit only down, by at least one at `j`. */
  lemma {:induction false} AheadDrops(a: Rows, b: Rows, i: nat, j: nat, n: nat)
    requires |a| == |b| && i < |a| && j < |a| && n <= |a| && Competes(a, i, j)
    requires forall k :: 0 <= k < |a| && k != j ==> a[k] == b[k]
    requires Competes(b, i, j) ==> Credit(b[j]) < Credit(a[j])
    ensures Ahead(b, i, n) + (if j < n then 1 else 0) <= Ahead(a, i, n)
  {
    if n > 0 {
      AheadDrops(a, b, i, j, n - 1);
    }
  }

  lemma {:induction false} AheadSame(a: Rows, task: SyncTask, i: nat, n: nat)
    requires i < |a| && n <= |a|
    ensures Ahead(a + [task], i, n) == Ahead(a, i, n)
  {
    if n > 0 {
      AheadSame(a, task, i, n - 1);
    }
  }

  lemma {:induction false} AheadIsFourPerCompetitor(rows: Rows, i: nat, n: nat)
    requires i < |rows| && n <= |rows|
    requires forall k :: 0 <= k < |rows| ==> rows[k].retryCount >= 0
    ensures Ahead(rows, i, n) <= 4 * Competitors(rows, i, n)
  {
    if n > 0 {
      AheadIsFourPerCompetitor(rows, i, n - 1);
    }
  }

  /** Picks of a run, not counting deferrals, and its deferrals. */
  function Picks(es: seq<Event>): nat {
    if es == [] then 0 else Picks(es[1..]) + if es[0].Pick? && !es[0].attempt.Deferred? then 1 else 0
  }

  function Deferrals(es: seq<Event>): nat {
    if es == [] then 0 else Deferrals(es[1..]) + if es[0].Pick? && es[0].attempt.Deferred? then 1 else 0
  }

  /** No recovery, nothing arrives that would go before task `i`, `i` is not picked. */
  predicate Quiet(task: SyncTask, i: nat, es: seq<Event>) {
    forall k :: 0 <= k < |es| ==>
      match es[k]
      case Arrival(u) => !NotAfter(u, task)
      case Pick(id, _) => id != i
      case Recovery => false
  }

  lemma QuietStep(s: Sys, i: nat, e: Event)
    requires WellSized(s) && CanStep(s, e) && i < |s.rows| && s.rows[i].status.Pending?
    requires Quiet(s.rows[i], i, [e])
    ensures i < |Step(s, e).rows| && Step(s, e).rows[i] == s.rows[i]
    ensures Ahead(Step(s, e).rows, i, |Step(s, e).rows|) + Picks([e]) <= Ahead(s.rows, i, |s.rows|)
  {
    var s' := Step(s, e);
    assert [e][0] == e;
    match e
    case Arrival(u) =>
      AheadSame(s.rows, u, i, |s.rows|);
      assert s'.rows[|s.rows|] == u;
    case Pick(id, a) =>
      if a.Deferred? {
        assert s'.rows == s.rows;
      } else {
        AheadDrops(s.rows, s'.rows, i, id, |s.rows|);
      }
    case Recovery =>
  }

  lemma {:induction false} QuietRunIsShort(s: Sys, i: nat, es: seq<Event>)
    requires WellSized(s) && CanRun(s, es) && i < |s.rows| && s.rows[i].status.Pending?
    requires Quiet(s.rows[i], i, es)
    ensures Picks(es) <= Ahead(s.rows, i, |s.rows|)
    decreases |es|
  {
    if es != [] {
      assert [es[0]][0] == es[0] && Quiet(s.rows[i], i, [es[0]]);
      QuietStep(s, i, es[0]);
      var mid := Step(s, es[0]);
      assert forall k :: 0 <= k < |es[1..]| ==> es[1..][k] == es[k + 1];
      QuietRunIsShort(mid, i, es[1..]);
      assert Picks([es[0]]) == if es[0].Pick? && !es[0].attempt.Deferred? then 1 else 0;
    }
  }

  function AllPicks(es: seq<Event>): nat {
    Picks(es) + Deferrals(es)
  }

  /** A pending task with `k` pending competitors is among the first 4k + 1 + d picks, where d
      of them are deferred, as long as nothing that goes before it arrives and nothing is
      recovered: retries keep `created_at`, so a competitor wins at most four picks on which
      its handler runs. */
  lemma PickedWithinFourPerCompetitor(s: Sys, i: nat, es: seq<Event>)
    requires WellSized(s) && CanRun(s, es) && i < |s.rows| && s.rows[i].status.Pending?
    requires forall k :: 0 <= k < |s.rows| ==> s.rows[k].retryCount >= 0
    requires Calm(s.rows[i], es)
    requires AllPicks(es) > 4 * Competitors(s.rows, i, |s.rows|) + Deferrals(es)
    ensures PicksTask(es, i)
  {
    if !PicksTask(es, i) {
      QuietRunIsShort(s, i, es);
      AheadIsFourPerCompetitor(s.rows, i, |s.rows|);
    }
  }

  /* ---- Accounts without a token ---- */

  /** A task with a handler cannot be worked on while the accounts `out` have no token. */
  predicate Stuck(t: SyncTask, out: set<string>) {
    !HasNoHandler(t) && t.account in out
  }

  /** With the database working, the engine defers exactly the stuck tasks. */
  lemma DeferredIffStuck(t: SyncTask, env: TurnEnv, out: set<string>)
    requires env.hasClient <==> t.account !in out
    requires env.closeOk && env.download.startOk && env.delete.startOk && !env.other.Deferred?
    ensures TurnOutcome(t, env).Deferred? <==> Stuck(t, out)
  {
  }

  /** A run in which `out` are the accounts without a token, and every first write succeeds. */
  predicate Respects(s: Sys, es: seq<Event>, out: set<string>)
    requires WellSized(s) && CanRun(s, es)
    decreases |es|
  {
    es == [] ||
    (&& (es[0].Pick? ==> (es[0].attempt.Deferred? <==> Stuck(s.rows[es[0].id], out)))
     && Respects(Step(s, es[0]), es[1..], out))
  }

  /** Nothing is recovered, and nothing that goes before `task` arrives. */
  predicate Calm(task: SyncTask, es: seq<Event>) {
    forall k :: 0 <= k < |es| ==> !es[k].Recovery? && (es[k].Arrival? ==> !NotAfter(es[k].task, task))
  }

  predicate PicksTask(es: seq<Event>, i: nat) {
    exists k :: 0 <= k < |es| && es[k].Pick? && es[k].id == i
  }

  /** Every calm run with more than `bound` picks picks the task. */
  ghost predicate PickedWithin(s: Sys, i: nat, out: set<string>, bound: nat)
    requires WellSized(s) && i < |s.rows|
  {
    forall es :: CanRun(s, es) && Respects(s, es, out) && Calm(s.rows[i], es) && AllPicks(es) > bound ==> PicksTask(es, i)
  }

  /** No pending task that goes before task `i` is stuck. */
  predicate NoneStuckAhead(rows: Rows, i: nat, out: set<string>)
    requires i < |rows|
  {
    forall j :: 0 <= j < |rows| && Competes(rows, i, j) ==> !Stuck(rows[j], out)
  }

  lemma NoneStuckStays(s: Sys, i: nat, e: Event, out: set<string>)
    requires WellSized(s) && CanStep(s, e) && i < |s.rows| && s.rows[i].status.Pending?
    requires Quiet(s.rows[i], i, [e]) && NoneStuckAhead(s.rows, i, out)
    ensures i < |Step(s, e).rows| && Step(s, e).rows[i] == s.rows[i] && NoneStuckAhead(Step(s, e).rows, i, out)
  {
    var s' := Step(s, e);
    assert [e][0] == e;
    forall j | 0 <= j < |s'.rows| && Competes(s'.rows, i, j) ensures !Stuck(s'.rows[j], out) {
      assert j < |s.rows| && Competes(s.rows, i, j);
    }
  }

  /** While task `i` waits, only its competitors are picked; so nothing is deferred. */
  lemma {:induction false} NothingDeferred(s: Sys, i: nat, es: seq<Event>, out: set<string>)
    requires WellSized(s) && CanRun(s, es) && Respects(s, es, out) && i < |s.rows| && s.rows[i].status.Pending?
    requires Quiet(s.rows[i], i, es) && NoneStuckAhead(s.rows, i, out)
    ensures Deferrals(es) == 0
    decreases |es|
  {
    if es != [] {
      assert [es[0]][0] == es[0] && Quiet(s.rows[i], i, [es[0]]);
      NoneStuckStays(s, i, es[0], out);
      assert forall k :: 0 <= k < |es[1..]| ==> es[1..][k] == es[k + 1];
      NothingDeferred(Step(s, es[0]), i, es[1..], out);
      assert es[0].Pick? ==> Competes(s.rows, i, es[0].id);
    }
  }

  /** With a stuck task ahead, there is always another pick that is not of task `i`: the stuck
      task if its turn has come, otherwise some task before it. */
  lemma PickAnother(s: Sys, i: nat, j: nat, out: set<string>) returns (e: Event)
    requires WellSized(s) && i < |s.rows| && j < |s.rows| && s.rows[i].status.Pending?
    requires Competes(s.rows, i, j) && Stuck(s.rows[j], out)
    ensures CanStep(s, e) && e.Pick? && e.id != i && (e.attempt.Deferred? <==> Stuck(s.rows[e.id], out))
    ensures var s' := Step(s, e);
      |s'.rows| == |s.rows| && s'.rows[i] == s.rows[i] && s'.rows[j] == s.rows[j]
  {
    var m := NextExists(s.rows);
    if m == i {
      e := Pick(j, Deferred);
    } else {
      e := Pick(m, if Stuck(s.rows[m], out) then Deferred else Succeeded);
    }
  }

  lemma {:induction false} StarvingRun(s: Sys, i: nat, j: nat, out: set<string>, n: nat) returns (es: seq<Event>)
    requires WellSized(s) && i < |s.rows| && j < |s.rows| && s.rows[i].status.Pending?
    requires Competes(s.rows, i, j) && Stuck(s.rows[j], out)
    ensures CanRun(s, es) && Respects(s, es, out) && Calm(s.rows[i], es)
    ensures AllPicks(es) == n && !PicksTask(es, i)
    decreases n
  {
    if n == 0 {
      es := [];
    } else {
      var e := PickAnother(s, i, j, out);
      var rest := StarvingRun(Step(s, e), i, j, out, n - 1);
      es := [e] + rest;
      assert es[1..] == rest && es[0] == e;
    }
  }

  /** A pending task is picked within four picks per competitor, in every calm run, if and
      only if none of the pending tasks before it is stuck; with one of them, no larger number
      of picks is enough either. */
  lemma PickedInTimeIff(s: Sys, i: nat, out: set<string>, bound: nat)
    requires WellSized(s) && i < |s.rows| && s.rows[i].status.Pending?
    requires forall k :: 0 <= k < |s.rows| ==> s.rows[k].retryCount >= 0
    requires bound >= 4 * Competitors(s.rows, i, |s.rows|)
    ensures PickedWithin(s, i, out, bound) <==> NoneStuckAhead(s.rows, i, out)
  {
    if NoneStuckAhead(s.rows, i, out) {
      forall es | CanRun(s, es) && Respects(s, es, out) && Calm(s.rows[i], es) && AllPicks(es) > bound
        ensures PicksTask(es, i)
      {
        if !PicksTask(es, i) {
          NothingDeferred(s, i, es, out);
          QuietRunIsShort(s, i, es);
          AheadIsFourPerCompetitor(s.rows, i, |s.rows|);
        }
      }
    } else {
      var j :| 0 <= j < |s.rows| && Competes(s.rows, i, j) && Stuck(s.rows[j], out);
      var es := StarvingRun(s, i, j, out, bound + 1);
    }
  }

  /** Two accounts, the older task belonging to the one without a client: whatever else
      happens, all the engine's next picks are of that task and change nothing. */
  lemma {:induction false} SignedOutAccountStarvesAnother(envs: seq<TurnEnv>)
    requires forall k :: 0 <= k < |envs| ==> !envs[k].hasClient
    ensures var elder := SyncTask("signed out", None, Upload, None, 5, Pending, 0, 0);
      var s := Watch([elder, elder.(account := "signed in", createdAt := 1)]);
      var es := seq(|envs|, k requires 0 <= k < |envs| => Pick(0, TurnOutcome(elder, envs[k])));
      && (forall m :: IsNext(s.rows, m) ==> m == 0)
      && CanRun(s, es) && Run(s, es) == s && s.rows[1].status.Pending?
  {
    var elder := SyncTask("signed out", None, Upload, None, 5, Pending, 0, 0);
    var s := Watch([elder, elder.(account := "signed in", createdAt := 1)]);
    var es := seq(|envs|, k requires 0 <= k < |envs| => Pick(0, TurnOutcome(elder, envs[k])));
    DeferralsChangeNothing(s, 0, es);
  }

  lemma {:induction false} DeferralsChangeNothing(s: Sys, j: nat, es: seq<Event>)
    requires WellSized(s) && IsNext(s.rows, j) && forall k :: 0 <= k < |es| ==> es[k] == Pick(j, Deferred)
    ensures CanRun(s, es) && Run(s, es) == s
    decreases |es|
  {
    if es != [] {
      assert Step(s, es[0]) == s;
      DeferralsChangeNothing(s, j, es[1..]);
    }
  }
}
