/** A download task and the file it is about: the handler's effect on the queue row and on the
    disk, together. */
module DownloadTasks {
  import opened Prelude
  import opened TaskQueue
  import AtomicDownload

  /** The whole stream is at the target. */
  predicate Arrived(d: AtomicDownload.Disk, stream: seq<bytes>) {
    d.target.Some? && d.target.value in d.data && d.data[d.target.value] == Concat(stream)
  }

  /** `download_file`.  `startOk`, `setupOk` and `finishOk` are the database and directory steps
      around the transfer.  A task that ends completed has its whole stream at the target, one
      that is retried or given up has left the target alone, and one that is left in progress
      did the one or the other. */
  method DownloadTask(
    q: SyncQueue, id: nat, d0: AtomicDownload.Disk, startOk: bool, setupOk: bool, finishOk: bool, env: AtomicDownload.Env)
      returns (d: AtomicDownload.Disk, ghost es: seq<AtomicDownload.Event>)
    requires id < |q.rows| && q.rows[id].status.Pending?
    requires AtomicDownload.Inv(d0) && d0.phase.Idle?
    modifies q
    ensures AtomicDownload.CanRun(d0, es) && d == AtomicDownload.Run(d0, es) && d.phase.Idle?
    ensures |q.rows| == |old(q.rows)| && q.rows == old(q.rows)[id := q.rows[id]]
    ensures var t := old(q.rows)[id];
      t.fileId.None? || t.localPath.None? ==> d == d0
    ensures var t := old(q.rows)[id];
      t.fileId.Some? && t.localPath.Some? && q.rows[id].status.Completed? ==> Arrived(d, env.stream)
    ensures var t := old(q.rows)[id];
      t.fileId.Some? && t.localPath.Some? && startOk && setupOk && finishOk ==>
        (q.rows[id].status.Completed? <==>
          && env.openOk && env.createOk && env.flushOk && env.renameOk
          && (env.failAt.None? || env.failAt.value >= |env.stream|))
    ensures q.rows[id].status.Pending? || q.rows[id].status.Failed? ==> AtomicDownload.SameTarget(d0, d)
    ensures q.rows[id].status.InProgress? ==> Arrived(d, env.stream) || AtomicDownload.SameTarget(d0, d)
  {
    var task := q.rows[id];
    d, es := d0, [];
    var ok := false;
    if task.fileId.Some? && task.localPath.Some? && startOk && setupOk {
      ok, d, es := AtomicDownload.Download(d0, env);
    }
    q.DownloadFile(id, DownloadEnv(startOk, setupOk, ok, true, finishOk));
  }
}
