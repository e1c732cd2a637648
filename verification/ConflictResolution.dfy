/** Detecting and resolving a conflict: the local edit moves to a conflict copy, the
    remote version is downloaded to the original path. */
module ConflictResolution {
  import opened Prelude
  import opened ConflictCopy

  type Disk = map<string, bytes>

  /** The columns of a `drive_files` row that the resolution reads or writes. */
  datatype Record = Record(
    id: string, account: string, etag: Option<string>, version: Option<int>, size: Option<int>,
    localPath: Option<string>, cached: bool, localMtime: Option<int>)

  /** What Drive says about the file now. */
  datatype Remote = Remote(etag: Option<string>, version: Option<int>)

  predicate DetectConflict(mtime: int, rec: Record, remoteEtag: string) {
    && rec.localMtime.Some? && mtime > rec.localMtime.value
    && rec.etag.Some? && rec.etag.value != remoteEtag
  }

  /** One block of the download stream, or what stopped it. */
  datatype Block = Arrived(data: bytes) | StreamFailed | WriteFailed(partial: bytes)

  /** What each step meets: `true` where it succeeds.  `copyRow` is the row of the
      uploaded copy when the upload went through. */
  datatype Env = Env(
    renameOk: bool, readOk: bool, copyRow: Option<Record>, persistOk: bool, downloadOk: bool, createOk: bool,
    stream: seq<Block>, flushOk: bool, placeOk: bool, size: Option<int>, mtime: Option<int>, upsertOk: bool, statusOk: bool)

  function Received(stream: seq<Block>): bytes {
    if stream == [] || !stream[0].Arrived? then [] else stream[0].data + Received(stream[1..])
  }

  predicate AllArrived(stream: seq<Block>) {
    forall k :: 0 <= k < |stream| ==> stream[k].Arrived?
  }

  lemma {:induction false} ReceivedSnoc(stream: seq<Block>, k: nat)
    requires k < |stream| && AllArrived(stream[..k + 1])
    ensures Received(stream[..k + 1]) == Received(stream[..k]) + stream[k].data
  {
    assert stream[..k + 1][k] == stream[k];
    if k == 0 {
      assert stream[..1] == [stream[0]] && stream[..0] == [];
      assert Received([stream[0]]) == stream[0].data + Received([]);
    } else {
      var rest := stream[1..];
      assert stream[..k + 1][1..] == rest[..k] && stream[..k][1..] == rest[..k - 1];
      assert forall i :: 0 <= i < k ==> rest[..k][i] == stream[..k + 1][i + 1];
      ReceivedSnoc(rest, k - 1);
      assert stream[..k + 1][0] == stream[0] == stream[..k][0];
    }
  }

  /** The three paths of one resolution. */
  datatype Paths = Paths(dir: string, name: string, timestamp: string)
  {
    function Local(): string { dir + "/" + name }

    function Conflict(): string
      requires IsFileName(name)
    {
      dir + "/" + ConflictCopyName(Some(name), timestamp)
    }

    function Temp(): string { Local() + TEMP_SUFFIX }
  }

  lemma PathsDiffer(p: Paths)
    requires IsFileName(p.name)
    ensures p.Local() != p.Conflict() && p.Conflict() != p.Temp() && p.Local() != p.Temp()
  {
    CopyIsNew(p.name, p.timestamp);
  }

  /* ---- What a resolution does to the disk ---- */

  /** One atomic change: `rename(local, conflict)`, a write that leaves the temporary file with
      this content, or `rename(temp, local)`. */
  datatype Change = Move | WriteTemp(content: bytes) | Place

  function Apply(d: Disk, c: Change, p: Paths): Disk
    requires IsFileName(p.name)
  {
    match c
    case Move => if p.Local() in d then (d - {p.Local()})[p.Conflict() := d[p.Local()]] else d
    case WriteTemp(content) => d[p.Temp() := content]
    case Place => if p.Temp() in d then (d - {p.Temp()})[p.Local() := d[p.Temp()]] else d
  }

  /** A rename takes the file from one path to the other, and a write sets one path. */
  lemma ChangesMoveFiles(d: Disk, content: bytes, p: Paths)
    requires IsFileName(p.name)
    ensures p.Local() in d ==>
      var d' := Apply(d, Move, p); p.Local() !in d' && p.Conflict() in d' && d'[p.Conflict()] == d[p.Local()]
    ensures p.Temp() in d ==>
      var d' := Apply(d, Place, p); p.Temp() !in d' && p.Local() in d' && d'[p.Local()] == d[p.Temp()]
    ensures var d' := Apply(d, WriteTemp(content), p); p.Temp() in d' && d'[p.Temp()] == content
  {
    PathsDiffer(p);
  }

  lemma OtherPathsStay(d: Disk, c: Change, p: Paths, path: string)
    requires IsFileName(p.name) && path != p.Local() && path != p.Conflict() && path != p.Temp()
    ensures (path in Apply(d, c, p) <==> path in d) && (path in d ==> Apply(d, c, p)[path] == d[path])
  {
  }

  /** The disk after some changes. */
  function After(d: Disk, cs: seq<Change>, p: Paths): Disk
    requires IsFileName(p.name)
  {
    if cs == [] then d else Apply(After(d, cs[..|cs| - 1], p), cs[|cs| - 1], p)
  }

  lemma AfterSnoc(d: Disk, cs: seq<Change>, c: Change, p: Paths)
    requires IsFileName(p.name)
    ensures After(d, cs + [c], p) == Apply(After(d, cs, p), c, p)
  {
    assert (cs + [c])[..|cs|] == cs;
  }

  lemma {:induction false} AfterConcat(d: Disk, a: seq<Change>, b: seq<Change>, p: Paths)
    requires IsFileName(p.name)
    ensures After(d, a + b, p) == After(After(d, a, p), b, p)
  {
    if b == [] {
      assert a + b == a;
    } else {
      var front, last := b[..|b| - 1], b[|b| - 1];
      assert a + b == (a + front) + [last];
      AfterSnoc(d, a + front, last, p);
      AfterConcat(d, a, front, p);
    }
  }

  /** The edit is on disk under its own or the copy's name, and nothing but the three
      paths differs from the disk before. */
  predicate EditKept(before: Disk, now: Disk, p: Paths)
    requires IsFileName(p.name) && p.Local() in before
  {
    && ((p.Local() in now && now[p.Local()] == before[p.Local()])
        || (p.Conflict() in now && now[p.Conflict()] == before[p.Local()]))
    && OnlyTheseChange(before, now, p)
  }

  /** ... after every prefix of the changes. */
  predicate EditAlwaysKept(before: Disk, cs: seq<Change>, p: Paths)
    requires IsFileName(p.name) && p.Local() in before
  {
    forall n :: 0 <= n <= |cs| ==> EditKept(before, After(before, cs[..n], p), p)
  }

  /** The edit is on disk as the conflict copy. */
  predicate CopyHolds(before: Disk, now: Disk, p: Paths)
    requires IsFileName(p.name) && p.Local() in before
  {
    p.Conflict() in now && now[p.Conflict()] == before[p.Local()] && OnlyTheseChange(before, now, p)
  }

  predicate OnlyTheseChange(before: Disk, now: Disk, p: Paths)
    requires IsFileName(p.name)
  {
    before - {p.Local(), p.Conflict(), p.Temp()} == now - {p.Local(), p.Conflict(), p.Temp()}
  }

  /** The edit moves away first, and only once. */
  predicate MovesFirst(cs: seq<Change>) {
    cs != [] ==> cs[0].Move? && forall i :: 0 < i < |cs| ==> !cs[i].Move?
  }

  lemma MoveKeepsEdit(d: Disk, p: Paths)
    requires IsFileName(p.name) && p.Local() in d
    ensures CopyHolds(d, Apply(d, Move, p), p)
  {
    PathsDiffer(p);
    var three := {p.Local(), p.Conflict(), p.Temp()};
    assert Apply(d, Move, p) - three == d - three;
  }

  lemma LaterChangeKeepsCopy(d0: Disk, d: Disk, c: Change, p: Paths)
    requires IsFileName(p.name) && p.Local() in d0 && CopyHolds(d0, d, p) && !c.Move?
    ensures CopyHolds(d0, Apply(d, c, p), p)
  {
    PathsDiffer(p);
    var three := {p.Local(), p.Conflict(), p.Temp()};
    assert Apply(d, c, p) - three == d - three;
  }

  /** Whatever is written and whatever moves into place later, the copy stays. */
  lemma {:induction false} CopyHoldsAfter(d: Disk, cs: seq<Change>, p: Paths)
    requires IsFileName(p.name) && p.Local() in d && MovesFirst(cs) && cs != []
    ensures CopyHolds(d, After(d, cs, p), p)
  {
    var front := cs[..|cs| - 1];
    if front == [] {
      MoveKeepsEdit(d, p);
    } else {
      CopyHoldsAfter(d, front, p);
      LaterChangeKeepsCopy(d, After(d, front, p), cs[|cs| - 1], p);
    }
  }

  lemma EditIsAlwaysKept(d: Disk, cs: seq<Change>, p: Paths)
    requires IsFileName(p.name) && p.Local() in d && MovesFirst(cs)
    ensures EditAlwaysKept(d, cs, p)
  {
    forall n | 0 <= n <= |cs| ensures EditKept(d, After(d, cs[..n], p), p) {
      if n > 0 {
        CopyHoldsAfter(d, cs[..n], p);
      }
    }
  }

  /** Both versions are on disk, the local one as the conflict copy. */
  predicate BothVersions(before: Disk, now: Disk, p: Paths, stream: seq<Block>)
    requires IsFileName(p.name) && p.Local() in before
  {
    CopyHolds(before, now, p) && InPlace(now, p, stream)
  }

  /** The whole stream is at the original path. */
  predicate InPlace(now: Disk, p: Paths, stream: seq<Block>) {
    AllArrived(stream) && p.Local() in now && now[p.Local()] == Received(stream) && p.Temp() !in now
  }

  /** The row after a resolution. */
  function Updated(rec: Record, local: string, remote: Remote, env: Env): Record {
    rec.(cached := true, localPath := Some(local),
         etag := if remote.etag.Some? then remote.etag else rec.etag,
         version := if remote.version.Some? then remote.version else rec.version,
         size := if env.size.Some? then env.size else rec.size,
         localMtime := if env.mtime.Some? then env.mtime else rec.localMtime)
  }

  type Key = (string, string)

  function KeyOf(rec: Record): Key { (rec.id, rec.account) }

  /** Rows are stored under their primary key. */
  predicate WellKeyed(rows: map<Key, Record>) {
    forall k :: k in rows ==> KeyOf(rows[k]) == k
  }

  /** The disk after `cs`, which only write the temporary file. */
  predicate WritesLeadTo(d0: Disk, cs: seq<Change>, d: Disk, p: Paths)
    requires IsFileName(p.name)
  {
    d == After(d0, cs, p) && forall i :: 0 <= i < |cs| ==> cs[i].WriteTemp?
  }

  /** Disk, rows and queue as one resolution sees them.  The ghost results `cs` are the
      changes that a method makes to the disk, in order. */
  class Resolver {
    var disk: Disk
    var rows: map<Key, Record>
    var uploads: seq<(string, bytes)>
    var completed: set<nat>

    constructor (disk: Disk, rows: map<Key, Record>)
      ensures this.disk == disk && this.rows == rows && uploads == [] && completed == {}
    {
      this.disk, this.rows, uploads, completed := disk, rows, [], {};
    }

    /** Leave the temporary file with this content. */
    method SetTemp(p: Paths, content: bytes, ghost d0: Disk, ghost cs: seq<Change>) returns (ghost more: seq<Change>)
      requires IsFileName(p.name) && WritesLeadTo(d0, cs, disk, p)
      modifies this`disk
      ensures WritesLeadTo(d0, more, disk, p)
      ensures p.Temp() in disk && disk[p.Temp()] == content
    {
      AfterSnoc(d0, cs, WriteTemp(content), p);
      disk, more := disk[p.Temp() := content], cs + [WriteTemp(content)];
    }

    /** Stream the remote version into the temporary file. */
    method FetchToTemp(p: Paths, env: Env) returns (ok: bool, ghost cs: seq<Change>)
      requires IsFileName(p.name)
      modifies this`disk
      ensures WritesLeadTo(old(disk), cs, disk, p)
      ensures ok ==> AllArrived(env.stream) && p.Temp() in disk && disk[p.Temp()] == Received(env.stream)
    {
      cs := [];
      if !env.downloadOk || !env.createOk {
        return false, cs;
      }
      var file: bytes := [];
      cs := SetTemp(p, file, old(disk), cs);
      var k := 0;
      while k < |env.stream|
        invariant 0 <= k <= |env.stream|
        invariant WritesLeadTo(old(disk), cs, disk, p)
        invariant AllArrived(env.stream[..k]) && file == Received(env.stream[..k])
        invariant p.Temp() in disk && disk[p.Temp()] == file
      {
        match env.stream[k] {
          case StreamFailed =>
            return false, cs;
          case WriteFailed(partial) =>
            cs := SetTemp(p, file + partial, old(disk), cs);
            return false, cs;
          case Arrived(data) =>
            assert env.stream[..k + 1] == env.stream[..k] + [env.stream[k]];
            ReceivedSnoc(env.stream, k);
            file := file + data;
            cs := SetTemp(p, file, old(disk), cs);
            k := k + 1;
        }
      }
      assert env.stream[..k] == env.stream;
      return env.flushOk, cs;
    }

    /** Put the fetched version in place and record it. */
    method Finish(p: Paths, rec: Record, remote: Remote, task: nat, env: Env) returns (ok: bool, ghost cs: seq<Change>)
      requires IsFileName(p.name) && p.Temp() in disk
      modifies this
      ensures if env.placeOk then disk == Apply(old(disk), Place, p) && cs == [Place]
              else !ok && disk == old(disk) && cs == []
      ensures uploads == old(uploads) && (WellKeyed(old(rows)) ==> WellKeyed(rows))
      ensures ok ==> env.placeOk && KeyOf(rec) in rows && rows[KeyOf(rec)] == Updated(rec, p.Local(), remote, env)
      ensures ok ==> completed == old(completed) + {task}
    {
      if !env.placeOk {
        return false, [];
      }
      disk, cs := (disk - {p.Temp()})[p.Local() := disk[p.Temp()]], [Place];
      if !env.upsertOk {
        return false, cs;
      }
      rows := rows[KeyOf(rec) := Updated(rec, p.Local(), remote, env)];
      if !env.statusOk {
        return false, cs;
      }
      completed := completed + {task};
      return true, cs;
    }

    /** Fetch the remote version and put it in place. */
    method Replace(p: Paths, rec: Record, remote: Remote, task: nat, env: Env) returns (ok: bool, ghost cs: seq<Change>)
      requires IsFileName(p.name)
      modifies this
      ensures disk == After(old(disk), cs, p) && forall i :: 0 <= i < |cs| ==> !cs[i].Move?
      ensures uploads == old(uploads) && (WellKeyed(old(rows)) ==> WellKeyed(rows))
      ensures ok ==> InPlace(disk, p, env.stream)
      ensures ok ==> KeyOf(rec) in rows && rows[KeyOf(rec)] == Updated(rec, p.Local(), remote, env)
      ensures ok ==> completed == old(completed) + {task}
    {
      ok, cs := FetchToTemp(p, env);
      if ok {
        AfterSnoc(old(disk), cs, Place, p);
        assert p.Local() != p.Temp();
        ghost var last;
        ok, last := Finish(p, rec, remote, task, env);
        assert cs + [] == cs;
        cs := cs + last;
      }
    }

    /** Upload the copy; if that works its row is stored, if that works too. */
    method UploadCopy(p: Paths, env: Env)
      requires IsFileName(p.name) && p.Conflict() in disk
      modifies this`uploads, this`rows
      ensures uploads == old(uploads) + [(ConflictCopyName(Some(p.name), p.timestamp), disk[p.Conflict()])]
      ensures WellKeyed(old(rows)) ==> WellKeyed(rows)
    {
      uploads := uploads + [(ConflictCopyName(Some(p.name), p.timestamp), disk[p.Conflict()])];
      if env.copyRow.Some? && env.persistOk {
        rows := rows[KeyOf(env.copyRow.value) := env.copyRow.value];
      }
    }

    /** Move the edit away, upload it, fetch the remote version and put it in place. */
    method Resolve(p: Paths, rec: Record, remote: Remote, task: nat, env: Env) returns (ok: bool, ghost cs: seq<Change>)
      requires IsFileName(p.name)
      modifies this
      ensures disk == After(old(disk), cs, p)
      ensures p.Local() in old(disk) ==> EditAlwaysKept(old(disk), cs, p)
      ensures p.Local() in old(disk) && env.renameOk ==> CopyHolds(old(disk), disk, p)
      ensures WellKeyed(old(rows)) ==> WellKeyed(rows)
      ensures p.Local() !in old(disk) ==> !ok && disk == old(disk) && rows == old(rows) && uploads == old(uploads)
      ensures ok ==> p.Local() in old(disk) && BothVersions(old(disk), disk, p, env.stream)
      ensures ok ==> uploads == old(uploads) + [(ConflictCopyName(Some(p.name), p.timestamp), old(disk)[p.Local()])]
      ensures ok ==> KeyOf(rec) in rows && rows[KeyOf(rec)] == Updated(rec, p.Local(), remote, env)
      ensures ok ==> completed == old(completed) + {task}
    {
      cs := [];
      ghost var d0 := disk;
      if !env.renameOk || p.Local() !in disk {
        ResolvedSoFar(d0, cs, disk, p);
        return false, cs;
      }
      disk, cs := (disk - {p.Local()})[p.Conflict() := disk[p.Local()]], [Move];
      AfterSnoc(d0, [], Move, p);
      ResolvedSoFar(d0, cs, disk, p);
      if !env.readOk {
        return false, cs;
      }
      UploadCopy(p, env);
      ghost var more;
      ok, more := Replace(p, rec, remote, task, env);
      AfterConcat(d0, cs, more, p);
      cs := cs + more;
      ResolvedSoFar(d0, cs, disk, p);
    }

    /** Check before an upload.  `Ok(true)`: a conflict was found and resolved;
        `Ok(false)`: nothing to do, nothing changed. */
    method CheckAndResolve(p: Paths, key: Key, mtime: Option<int>, remote: Option<Remote>, task: nat, env: Env)
        returns (r: Result<bool, ()>)
      requires IsFileName(p.name) && WellKeyed(rows)
      modifies this
      ensures WellKeyed(rows)
      ensures r == Ok(false) <==>
        !(&& key in old(rows) && mtime.Some? && remote.Some? && remote.value.etag.Some?
          && old(rows)[key].localMtime.Some? && old(rows)[key].localMtime.value < mtime.value
          && old(rows)[key].etag.Some? && old(rows)[key].etag.value != remote.value.etag.value)
      ensures r == Ok(false) ==> disk == old(disk) && rows == old(rows) && uploads == old(uploads)
      ensures p.Local() in old(disk) ==> EditKept(old(disk), disk, p)
      ensures r == Ok(true) ==>
        && key in rows && remote.Some? && remote.value.etag.Some?
        && rows[key].id == key.0 && rows[key].account == key.1
        && rows[key].etag == remote.value.etag && rows[key].cached && rows[key].localPath == Some(p.Local())
        && rows[key].version == (if remote.value.version.None? then old(rows)[key].version else remote.value.version)
        && rows[key].size == (if env.size.None? then old(rows)[key].size else env.size)
        && (forall later :: !DetectConflict(later, rows[key], remote.value.etag.value))
        && (env.mtime.Some? ==> forall etag :: !DetectConflict(env.mtime.value, rows[key], etag))
    {
      ghost var d0 := disk;
      if key !in rows || mtime.None? || remote.None? || remote.value.etag.None? {
        return Ok(false);
      }
      var rec := rows[key];
      if !DetectConflict(mtime.value, rec, remote.value.etag.value) {
        return Ok(false);
      }
      var ok, cs := Resolve(p, rec, remote.value, task, env);
      assert p.Local() in d0 ==> EditKept(d0, After(d0, cs[..|cs|], p), p) && cs[..|cs|] == cs;
      return if ok then Ok(true) else Err(());
    }
  }


  /** What holds of the disk at every exit of a resolution. */
  lemma ResolvedSoFar(d0: Disk, cs: seq<Change>, d: Disk, p: Paths)
    requires IsFileName(p.name) && d == After(d0, cs, p) && MovesFirst(cs)
    ensures p.Local() in d0 ==> EditAlwaysKept(d0, cs, p)
    ensures p.Local() in d0 && cs != [] ==> CopyHolds(d0, d, p)
  {
    if p.Local() in d0 {
      EditIsAlwaysKept(d0, cs, p);
      if cs != [] {
        CopyHoldsAfter(d0, cs, p);
      }
    }
  }
}
