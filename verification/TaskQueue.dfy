/** The `sync_queue` table, the scheduler's choice and the worker handlers.

    Rows are never deleted and ids are handed out in insertion order, so the table
    is a sequence and a task id is a position in it. */
module TaskQueue {
  import opened Prelude

  /** Retry limit of the download and delete handlers. */
  const MAX_RETRIES: int := 3

  datatype Status = Pending | InProgress | Completed | Failed

  datatype Operation = Upload | Download | PhotosBackup | Delete | Rename | Move

  datatype SyncTask = SyncTask(
    account: string, fileId: Option<string>, operation: Operation, localPath: Option<string>,
    priority: int, status: Status, retryCount: int, createdAt: int)
  {
    predicate ShouldGiveUp(maxRetries: int) { retryCount >= maxRetries }

    predicate IsTerminal() { status.Completed? || status.Failed? }

    predicate IsRetryable(maxRetries: int) { status.Failed? && !ShouldGiveUp(maxRetries) }
  }

  type Rows = seq<SyncTask>

  function Compare(a: int, b: int): int {
    if a < b then -1 else if a == b then 0 else 1
  }

  /** Negative, zero or positive: first by priority, then by creation time. */
  function ComparePriority(a: SyncTask, b: SyncTask): int {
    if Compare(a.priority, b.priority) != 0 then Compare(a.priority, b.priority)
    else Compare(a.createdAt, b.createdAt)
  }

  predicate NotAfter(a: SyncTask, b: SyncTask) {
    ComparePriority(a, b) <= 0
  }

  /** A row that ORDER BY priority, created_at LIMIT 1 may return; ties are open. */
  predicate IsNext(rows: Rows, i: nat) {
    && i < |rows|
    && rows[i].status.Pending?
    && forall j :: 0 <= j < |rows| && rows[j].status.Pending? ==> NotAfter(rows[i], rows[j])
  }

  /** On the columns: nothing pending has a smaller priority number, or the same one and an
      earlier creation time. */
  lemma NextIsMostUrgent(rows: Rows, i: nat)
    requires i < |rows|
    ensures IsNext(rows, i) <==>
      && rows[i].status.Pending?
      && forall j :: 0 <= j < |rows| && rows[j].status.Pending? ==>
           rows[i].priority < rows[j].priority
           || (rows[i].priority == rows[j].priority && rows[i].createdAt <= rows[j].createdAt)
  {
    assert forall j :: 0 <= j < |rows| ==>
      (NotAfter(rows[i], rows[j]) <==>
        rows[i].priority < rows[j].priority
        || (rows[i].priority == rows[j].priority && rows[i].createdAt <= rows[j].createdAt));
  }

  lemma {:induction false} NextExists(rows: Rows) returns (i: nat)
    requires exists j :: 0 <= j < |rows| && rows[j].status.Pending?
    ensures IsNext(rows, i)
  {
    var rest, last := rows[..|rows| - 1], rows[|rows| - 1];
    if j :| 0 <= j < |rest| && rest[j].status.Pending? {
      i := NextExists(rest);
      if last.status.Pending? && !NotAfter(rest[i], last) {
        i := |rows| - 1;
      }
    } else {
      i := |rows| - 1;
    }
  }

  /* ---- What one handler call does to the queue ---- */

  /** How a pick ended.  Abandoned: an error left the row `in_progress`.  Deferred: nothing
      was written, since the account has no valid token or the first write failed. */
  datatype Attempt = Succeeded | Erred | Abandoned | Deferred

  function AfterAttempt(rows: Rows, i: nat, a: Attempt): Rows
    requires i < |rows|
  {
    var t := rows[i];
    rows[i := match a
              case Succeeded => t.(status := Completed)
              case Abandoned => t.(status := InProgress)
              case Deferred => t
              case Erred =>
                if t.ShouldGiveUp(MAX_RETRIES) then t.(status := Failed)
                else t.(status := Pending, retryCount := t.retryCount + 1)]
  }

  function Recovered(rows: Rows): (r: Rows)
    ensures |r| == |rows|
    ensures forall i :: 0 <= i < |rows| ==>
      r[i] == if rows[i].status.InProgress? then rows[i].(status := Pending) else rows[i]
  {
    if rows == [] then []
    else
      [if rows[0].status.InProgress? then rows[0].(status := Pending) else rows[0]] + Recovered(rows[1..])
  }

  /** What the network, the disk and the database do during one download.  `startOk` and
      `finishOk`: the first and the last status update of the call are written. */
  datatype DownloadEnv = DownloadEnv(startOk: bool, setupOk: bool, transferOk: bool, renameOk: bool, finishOk: bool)

  function DownloadOutcome(t: SyncTask, env: DownloadEnv): Attempt {
    if !env.startOk then Deferred
    else if t.fileId.None? || t.localPath.None? then Succeeded
    else if !env.setupOk || !env.finishOk then Abandoned
    else if env.transferOk && env.renameOk then Succeeded
    else Erred
  }

  datatype DeleteEnv = DeleteEnv(startOk: bool, lookupOk: bool, recordFound: bool, trashOk: bool, finishOk: bool)

  function DeleteOutcome(t: SyncTask, env: DeleteEnv): Attempt {
    if !env.startOk then Deferred
    else if !env.finishOk || (!env.lookupOk && (t.fileId.Some? || t.localPath.Some?)) then Abandoned
    else if t.fileId.None? && t.localPath.Some? && env.recordFound && !env.trashOk then Erred
    else Succeeded
  }

  /** What happens while the engine works on one task: whether its account has a client, the
      handlers' environments, how the handlers that are not modelled end, and whether the
      update that closes an unknown operation is written. */
  datatype TurnEnv = TurnEnv(
    hasClient: bool, download: DownloadEnv, delete: DeleteEnv, other: Attempt, closeOk: bool)

  /** An operation without a handler is marked completed. */
  function TurnOutcome(t: SyncTask, env: TurnEnv): Attempt {
    if HasNoHandler(t) then if env.closeOk then Succeeded else Deferred
    else if !env.hasClient then Deferred
    else if t.operation.Download? then DownloadOutcome(t, env.download)
    else if t.operation.Delete? then DeleteOutcome(t, env.delete)
    else env.other
  }

  /** Renames and moves are operations that the engine does not know. */
  predicate HasNoHandler(t: SyncTask) {
    t.operation.Rename? || t.operation.Move?
  }

  /** The engine completes a task without a client exactly when the task has no handler and the
      closing update is written; what became of the client then makes no difference. */
  lemma CompletedWithoutClientIff(t: SyncTask, env: TurnEnv)
    ensures TurnOutcome(t, env.(hasClient := false)).Succeeded? <==> HasNoHandler(t) && env.closeOk
    ensures HasNoHandler(t) ==> TurnOutcome(t, env) == TurnOutcome(t, env.(hasClient := false))
  {
  }

  class SyncQueue {
    var rows: Rows

    constructor ()
      ensures rows == []
    {
      rows := [];
    }

    method Enqueue(task: SyncTask) returns (id: nat)
      modifies this
      ensures rows == old(rows) + [task] && id == |old(rows)|
    {
      id := |rows|;
      rows := rows + [task];
    }

    /** The pending task to run next, or nothing when no task is pending. */
    method NextPendingTask() returns (r: Option<nat>)
      ensures r.Some? ==> IsNext(rows, r.value)
      ensures r.Some? ==> forall j :: 0 <= j < |rows| && rows[j].status.Pending? ==>
        rows[r.value].priority < rows[j].priority
        || (rows[r.value].priority == rows[j].priority && rows[r.value].createdAt <= rows[j].createdAt)
      ensures r.None? ==> forall j :: 0 <= j < |rows| ==> !rows[j].status.Pending?
    {
      if i :| 0 <= i < |rows| && IsNext(rows, i) {
        r := Some(i);
        NextIsMostUrgent(rows, i);
      } else {
        r := None;
        if exists j :: 0 <= j < |rows| && rows[j].status.Pending? {
          var _ := NextExists(rows);
        }
      }
    }

    method UpdateTaskStatus(id: nat, status: Status)
      modifies this
      ensures |rows| == |old(rows)|
      ensures rows == if id < |old(rows)| then old(rows)[id := old(rows)[id].(status := status)] else old(rows)
    {
      if id < |rows| {
        rows := rows[id := rows[id].(status := status)];
      }
    }

    method UpdateTaskRetry(id: nat, status: Status, retryCount: int)
      modifies this
      ensures |rows| == |old(rows)|
      ensures rows == if id < |old(rows)|
                      then old(rows)[id := old(rows)[id].(status := status, retryCount := retryCount)]
                      else old(rows)
    {
      if id < |rows| {
        rows := rows[id := rows[id].(status := status, retryCount := retryCount)];
      }
    }

    method ResetInProgressToPending()
      modifies this
      ensures rows == Recovered(old(rows))
    {
      rows := Recovered(rows);
    }

    /** Requeue a failed attempt, or give up. */
    method HandleFailure(id: nat, task: SyncTask)
      requires id < |rows| && rows[id] == task.(status := InProgress)
      modifies this
      ensures rows == AfterAttempt(old(rows)[id := task], id, Erred)
      ensures rows[id].status.Failed? <==> task.ShouldGiveUp(MAX_RETRIES)
    {
      var newRetry := task.retryCount + 1;
      if newRetry > MAX_RETRIES {
        UpdateTaskStatus(id, Failed);
      } else {
        UpdateTaskRetry(id, Pending, newRetry);
      }
    }

    method DownloadFile(id: nat, env: DownloadEnv)
      requires id < |rows|
      modifies this
      ensures rows == AfterAttempt(old(rows), id, DownloadOutcome(old(rows)[id], env))
      ensures rows[id].status.Failed? && !old(rows)[id].status.Failed? ==> old(rows)[id].ShouldGiveUp(MAX_RETRIES)
      ensures var t := old(rows)[id];
        rows == old(rows)[id :=
          if !env.startOk then t
          else if t.fileId.None? || t.localPath.None? then t.(status := Completed)
          else if !(env.setupOk && env.finishOk) then t.(status := InProgress)
          else if env.transferOk && env.renameOk then t.(status := Completed)
          else if t.retryCount < 3 then t.(status := Pending, retryCount := t.retryCount + 1)
          else t.(status := Failed)]
    {
      var task := rows[id];
      if !env.startOk {
        return;
      }
      if task.fileId.None? || task.localPath.None? {
        UpdateTaskStatus(id, Completed);
        return;
      }
      UpdateTaskStatus(id, InProgress);
      if !env.setupOk || !env.finishOk {
        return;
      }
      if env.transferOk && env.renameOk {
        UpdateTaskStatus(id, Completed);
      } else {
        HandleFailure(id, task);
      }
    }

    method DeleteFile(id: nat, env: DeleteEnv)
      requires id < |rows|
      modifies this
      ensures rows == AfterAttempt(old(rows), id, DeleteOutcome(old(rows)[id], env))
      ensures rows[id].status.Failed? && !old(rows)[id].status.Failed? ==> old(rows)[id].ShouldGiveUp(MAX_RETRIES)
      ensures var t := old(rows)[id];
        var local := t.fileId.None? && t.localPath.Some?;
        rows == old(rows)[id :=
          if !env.startOk then t
          else if !env.finishOk || (!env.lookupOk && (local || t.fileId.Some?)) then t.(status := InProgress)
          else if !(local && env.recordFound && !env.trashOk) then t.(status := Completed)
          else if t.retryCount < 3 then t.(status := Pending, retryCount := t.retryCount + 1)
          else t.(status := Failed)]
    {
      var task := rows[id];
      if !env.startOk {
        return;
      }
      UpdateTaskStatus(id, InProgress);
      if !env.finishOk {
        return;
      }
      if task.fileId.Some? {
        if env.lookupOk {
          UpdateTaskStatus(id, Completed);
        }
      } else if task.localPath.Some? {
        if !env.lookupOk {
          return;
        }
        if env.recordFound && !env.trashOk {
          HandleFailure(id, task);
        } else {
          UpdateTaskStatus(id, Completed);
        }
      } else {
        UpdateTaskStatus(id, Completed);
      }
    }

    /** The engine's dispatch of one task to its handler. */
    method ProcessTask(id: nat, env: TurnEnv)
      requires id < |rows|
      modifies this
      ensures rows == AfterAttempt(old(rows), id, TurnOutcome(old(rows)[id], env))
      ensures old(rows)[id].status.Pending? && (!env.hasClient || HasNoHandler(old(rows)[id])) ==>
        (rows[id].status.Completed? <==> HasNoHandler(old(rows)[id]) && env.closeOk)
      ensures (if HasNoHandler(old(rows)[id]) then !env.closeOk else !env.hasClient) ==> rows == old(rows)
      ensures env.hasClient ==>
        match old(rows)[id].operation
        case Download => rows == AfterAttempt(old(rows), id, DownloadOutcome(old(rows)[id], env.download))
        case Delete => rows == AfterAttempt(old(rows), id, DeleteOutcome(old(rows)[id], env.delete))
        case Upload => rows == AfterAttempt(old(rows), id, env.other)
        case PhotosBackup => rows == AfterAttempt(old(rows), id, env.other)
        case _ => true
    {
      CompletedWithoutClientIff(rows[id], env);
      var operation := rows[id].operation;
      if operation.Rename? || operation.Move? {
        if env.closeOk {
          UpdateTaskStatus(id, Completed);
        }
      } else if env.hasClient {
        if operation.Download? {
          DownloadFile(id, env.download);
        } else if operation.Delete? {
          DeleteFile(id, env.delete);
        } else {
          rows := AfterAttempt(rows, id, env.other);
        }
      }
    }

    /** Run the queue dry when nothing fails and nothing arrives: the picks come out
        sorted, and they are the pending tasks, each exactly once. */
    method Drain() returns (order: seq<nat>)
      modifies this
      ensures forall i :: i in order <==> 0 <= i < |old(rows)| && old(rows)[i].status.Pending?
      ensures forall a :: 0 <= a < |order| ==> order[a] < |old(rows)|
      ensures forall a, b :: 0 <= a < b < |order| ==> order[a] != order[b]
      ensures forall a, b :: 0 <= a < b < |order| ==>
        var s, t := old(rows)[order[a]], old(rows)[order[b]];
        s.priority < t.priority || (s.priority == t.priority && s.createdAt <= t.createdAt)
      ensures |rows| == |old(rows)|
      ensures forall i :: 0 <= i < |rows| ==>
        rows[i] == if old(rows)[i].status.Pending? then old(rows)[i].(status := Completed) else old(rows)[i]
    {
      order := [];
      ghost var was := rows;
      var next := NextPendingTask();
      while next.Some?
        invariant DrainInv(was, rows, order)
        invariant next.Some? ==> IsNext(rows, next.value)
        invariant next.None? ==> forall j :: 0 <= j < |rows| ==> !rows[j].status.Pending?
        decreases |was| - |order|
      {
        DrainStep(was, rows, order, next.value);
        UpdateTaskStatus(next.value, Completed);
        order := order + [next.value];
        next := NextPendingTask();
      }
      assert forall a, b :: 0 <= a < b < |order| ==> NotAfter(was[order[a]], was[order[b]]);
    }
  }

  /** After some picks of a drain: picked tasks are completed, the others untouched, and
      no pick goes after a task that is still pending. */
  predicate DrainInv(was: Rows, rows: Rows, order: seq<nat>) {
    && |rows| == |was|
    && (forall a :: 0 <= a < |order| ==> order[a] < |was| && was[order[a]].status.Pending?)
    && (forall i :: 0 <= i < |was| ==> rows[i] == if i in order then was[i].(status := Completed) else was[i])
    && (forall a, b :: 0 <= a < b < |order| ==> order[a] != order[b])
    && (forall a, b :: 0 <= a < b < |order| ==> NotAfter(was[order[a]], was[order[b]]))
    && (forall a, j :: 0 <= a < |order| && 0 <= j < |rows| && rows[j].status.Pending? ==> NotAfter(was[order[a]], was[j]))
  }

  lemma DrainStep(was: Rows, rows: Rows, order: seq<nat>, i: nat)
    requires DrainInv(was, rows, order) && IsNext(rows, i)
    ensures |order| < |was|
    ensures DrainInv(was, rows[i := rows[i].(status := Completed)], order + [i])
  {
    var rows', order' := rows[i := rows[i].(status := Completed)], order + [i];
    assert i !in order && rows[i] == was[i];
    assert forall k :: k in order' <==> k in order || k == i;
    assert forall j :: 0 <= j < |rows| ==> (rows'[j].status.Pending? ==> rows[j].status.Pending? && j !in order);
    OrderIsShort(order', was);
  }

  function IndexSet(n: nat): (s: set<nat>)
    ensures |s| == n && forall i :: i in s <==> 0 <= i < n
  {
    if n == 0 then {} else IndexSet(n - 1) + {n - 1}
  }

  lemma OrderIsShort(order: seq<nat>, was: Rows)
    requires forall a :: 0 <= a < |order| ==> order[a] < |was|
    requires forall a, b :: 0 <= a < b < |order| ==> order[a] != order[b]
    ensures |order| <= |was|
  {
    DistinctCount(order, IndexSet(|was|));
  }

  lemma {:induction false} DistinctCount(s: seq<nat>, within: set<nat>)
    requires forall i :: i in s ==> i in within
    requires forall a, b :: 0 <= a < b < |s| ==> s[a] != s[b]
    ensures |s| <= |within|
  {
    if s != [] {
      var last := s[|s| - 1];
      assert last in s;
      DistinctCount(s[..|s| - 1], within - {last});
    }
  }
}
