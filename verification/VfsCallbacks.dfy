/** The FUSE callbacks that edit the tree, the queue and the handle table. */
module VfsCallbacks {
  import opened Prelude
  import opened VfsTree
  import opened VfsEdits
  import TQ = TaskQueue

  datatype Errno = ENOENT | EIO | EEXIST | EISDIR | ENOTDIR | ENOTEMPTY | EBADF | EOPNOTSUPP

  datatype Handle = Handle(ino: Inode, localPath: string)

  /** Everything a callback can change, plus the accounts by most recent use. */
  datatype Fs = Fs(
    files: Table, nextRowid: nat, accounts: seq<string>, queue: TQ.Rows,
    openFiles: map<nat, Handle>, nextFh: nat)

  /** How far the disk side of a create gets: the cache directory, then the empty file. */
  datatype CacheDisk = NoDirectory | NoFile | Fine

  datatype Op =
    | Create(parent: Inode, name: string, freshId: string, disk: CacheDisk)
    | Mkdir(parent: Inode, name: string, freshId: string)
    | Rename(parent: Inode, name: string, newParent: Inode, newName: string)
    | Unlink(parent: Inode, name: string)
    | Rmdir(parent: Inode, name: string)
    | Open(ino: Inode)
    | Flush(ino: Inode, fh: nat)
    | Release(fh: nat)

  datatype Reply = Done | Entry(ino: Inode) | Created(ino: Inode, fh: nat) | Opened(fh: nat) | Fault(errno: Errno)

  /* ---- Pieces shared by several callbacks ---- */

  /** A lookup may return any matching row, and must return one if there is any. */
  method LookupByParentAndName(files: Table, parent: Inode, name: string) returns (r: Option<Inode>)
    ensures r.Some? ==> Child(files, parent, name, r.value)
    ensures r.None? ==> forall c :: !Child(files, parent, name, c)
  {
    if c :| c in files && Child(files, parent, name, c) {
      r := Some(c);
    } else {
      r := None;
    }
  }

  datatype Place = Place(account: string, parentId: Option<string>)

  /** Account and parent id for a new entry under `parent`. */
  function PlaceFor(s: Fs, parent: Inode): Option<Place> {
    if parent == ROOT_INODE then
      if s.accounts == [] then None else Some(Place(s.accounts[0], None))
    else if Live(s.files, parent) then Some(Place(s.files[parent].account, Some(s.files[parent].id)))
    else None
  }

  function CachePath(account: string, id: string): string {
    "cache/" + account + "/" + id
  }

  function LocalPathOf(row: Row): string {
    if row.localPath.Some? then row.localPath.value else CachePath(row.account, row.id)
  }

  /** Tasks from the VFS are pending, unretried and of the highest priority. */
  function NewTask(row: Row, op: TQ.Operation, localPath: Option<string>, now: int): TQ.SyncTask {
    TQ.SyncTask(row.account, Some(row.id), op, localPath, 1, TQ.Pending, 0, now)
  }

  predicate Enqueued(before: TQ.Rows, after: TQ.Rows, row: Row, op: TQ.Operation, localPath: Option<string>) {
    |after| == |before| + 1 && after == before + [NewTask(row, op, localPath, after[|before|].createdAt)]
  }

  function FileRow(pl: Place, name: string, id: string): Row {
    Row(id, pl.account, name, Regular, pl.parentId, false, Some(CachePath(pl.account, id)), Modified)
  }

  function FolderRow(pl: Place, name: string, id: string): Row {
    Row(id, pl.account, name, Folder, pl.parentId, false, None, CloudOnly)
  }

  /* ---- One callback as a relation between file system states ---- */

  ghost predicate RenameStep(s: Fs, parent: Inode, name: string, newParent: Inode, newName: string, m: Inode, s': Fs) {
    && Child(s.files, parent, name, m)
    && (forall c :: !Child(s.files, newParent, newName, c))
    && (newParent == ROOT_INODE || Live(s.files, newParent))
    && var newId := if newParent == ROOT_INODE then None else Some(s.files[newParent].id);
       && s'.files == Renamed(s.files, m, newName, newId)
       && Enqueued(s.queue, s'.queue, s'.files[m], TQ.Rename, s.files[m].localPath)
       && s' == s.(files := s'.files, queue := s'.queue)
  }

  ghost predicate DeleteStep(s: Fs, m: Inode, s': Fs) {
    && m in s.files
    && s'.files == Trashed(s.files, m)
    && Enqueued(s.queue, s'.queue, s.files[m], TQ.Delete, s.files[m].localPath)
    && s' == s.(files := s'.files, queue := s'.queue)
  }

  ghost predicate Step(s: Fs, op: Op, r: Reply, s': Fs) {
    match op
    case Create(parent, name, id, disk) => (
      match PlaceFor(s, parent)
      case None => s' == s && r == Fault(if parent == ROOT_INODE then EIO else ENOENT)
      case Some(pl) =>
        if disk.NoDirectory? || !KeyFree(s.files, id, pl.account) then s' == s && r == Fault(EIO)
        else
          var grown := s.(files := s.files[s.nextRowid := FileRow(pl, name, id)], nextRowid := s.nextRowid + 1);
          if disk.NoFile? then s' == grown && r == Fault(EIO)
          else
            && r == Created(s.nextRowid, s.nextFh)
            && s' == grown.(openFiles := s.openFiles[s.nextFh := Handle(s.nextRowid, CachePath(pl.account, id))],
                            nextFh := s.nextFh + 1))
    case Mkdir(parent, name, id) =>
      if exists c :: Child(s.files, parent, name, c) then s' == s && r == Fault(EEXIST)
      else (
        match PlaceFor(s, parent)
        case None => s' == s && r == Fault(if parent == ROOT_INODE then EIO else ENOENT)
        case Some(pl) =>
          if !KeyFree(s.files, id, pl.account) then s' == s && r == Fault(EIO)
          else
            && r == Entry(s.nextRowid)
            && s' == s.(files := s.files[s.nextRowid := FolderRow(pl, name, id)], nextRowid := s.nextRowid + 1))
    case Rename(parent, name, newParent, newName) => (
      match r
      case Done => exists m :: RenameStep(s, parent, name, newParent, newName, m, s')
      case Fault(EEXIST) => s' == s && (exists c :: Child(s.files, parent, name, c)) && exists c :: Child(s.files, newParent, newName, c)
      case Fault(ENOENT) =>
        && s' == s
        && ((forall c :: !Child(s.files, parent, name, c)) || (newParent != ROOT_INODE && !Live(s.files, newParent)))
      case _ => false)
    case Unlink(parent, name) => (
      match r
      case Done => exists m :: Child(s.files, parent, name, m) && !s.files[m].kind.Folder? && DeleteStep(s, m, s')
      case Fault(EISDIR) => s' == s && exists m :: Child(s.files, parent, name, m) && s.files[m].kind.Folder?
      case Fault(ENOENT) => s' == s && forall c :: !Child(s.files, parent, name, c)
      case _ => false)
    case Rmdir(parent, name) => (
      match r
      case Done =>
        exists m :: Child(s.files, parent, name, m) && s.files[m].kind.Folder? && !HasChildren(s.files, m) && DeleteStep(s, m, s')
      case Fault(ENOTDIR) => s' == s && exists m :: Child(s.files, parent, name, m) && !s.files[m].kind.Folder?
      case Fault(ENOTEMPTY) =>
        s' == s && exists m :: Child(s.files, parent, name, m) && s.files[m].kind.Folder? && HasChildren(s.files, m)
      case Fault(ENOENT) => s' == s && forall c :: !Child(s.files, parent, name, c)
      case _ => false)
    case Open(ino) =>
      if ino == ROOT_INODE then s' == s && r == Fault(EISDIR)
      else if !Live(s.files, ino) then s' == s && r == Fault(ENOENT)
      else if s.files[ino].kind.Folder? then s' == s && r == Fault(EISDIR)
      else if s.files[ino].kind.Workspace? then s' == s && r == Fault(EOPNOTSUPP)
      else
        && r == Opened(s.nextFh)
        && s' == s.(openFiles := s.openFiles[s.nextFh := Handle(ino, LocalPathOf(s.files[ino]))], nextFh := s.nextFh + 1)
    case Flush(ino, fh) =>
      if fh !in s.openFiles || s.openFiles[fh].ino != ino || !Live(s.files, ino) then s' == s && r == Fault(EBADF)
      else
        && r == Done
        && if s.files[ino].syncState.Modified? then
             && Enqueued(s.queue, s'.queue, s.files[ino], TQ.Upload, Some(s.openFiles[fh].localPath))
             && s' == s.(queue := s'.queue)
           else s' == s
    case Release(fh) => r == Done && s' == s.(openFiles := s.openFiles - {fh})
  }

  /** What the kernel guarantees before it calls: parents are directories, a create
      follows a failed lookup, and a rename stays in its account and out of the
      subtree it moves. */
  ghost predicate Permitted(s: Fs, op: Op) {
    match op
    case Create(parent, name, _, _) =>
      && (Live(s.files, parent) ==> s.files[parent].kind.Folder?)
      && forall c :: !Child(s.files, parent, name, c)
    case Mkdir(parent, _, _) => Live(s.files, parent) ==> s.files[parent].kind.Folder?
    case Rename(parent, name, newParent, _) =>
      Live(s.files, newParent) ==>
        && s.files[newParent].kind.Folder?
        && forall m :: Child(s.files, parent, name, m) ==>
             s.files[m].account == s.files[newParent].account && Outside(s.files, m, newParent)
    case _ => true
  }

  /* ---- The file system object ---- */

  class GDriverFS {
    var files: Table
    var nextRowid: nat
    var accounts: seq<string>
    var queue: TQ.Rows
    var openFiles: map<nat, Handle>
    var nextFh: nat

    function State(): Fs
      reads this
    {
      Fs(files, nextRowid, accounts, queue, openFiles, nextFh)
    }

    constructor (files: Table, nextRowid: nat, accounts: seq<string>, queue: TQ.Rows)
      ensures State() == Fs(files, nextRowid, accounts, queue, map[], 1)
    {
      this.files, this.nextRowid, this.accounts, this.queue := files, nextRowid, accounts, queue;
      openFiles, nextFh := map[], 1;
    }

    method EnqueueTask(row: Row, op: TQ.Operation, localPath: Option<string>, now: int)
      modifies this`queue
      ensures Enqueued(old(queue), queue, row, op, localPath)
    {
      queue := queue + [NewTask(row, op, localPath, now)];
    }

    method CreateFile(parent: Inode, name: string, freshId: string, disk: CacheDisk) returns (r: Reply)
      modifies this
      ensures Step(old(State()), Create(parent, name, freshId, disk), r, State())
    {
      var place := PlaceFor(State(), parent);
      if place.None? {
        return Fault(if parent == ROOT_INODE then EIO else ENOENT);
      }
      var pl := place.value;
      if disk.NoDirectory? {
        return Fault(EIO);
      }
      if !KeyFree(files, freshId, pl.account) {
        return Fault(EIO);
      }
      var ino := nextRowid;
      files, nextRowid := files[ino := FileRow(pl, name, freshId)], nextRowid + 1;
      if disk.NoFile? {
        return Fault(EIO);
      }
      var fh := nextFh;
      nextFh := nextFh + 1;
      openFiles := openFiles[fh := Handle(ino, CachePath(pl.account, freshId))];
      return Created(ino, fh);
    }

    method MakeDirectory(parent: Inode, name: string, freshId: string) returns (r: Reply)
      modifies this
      ensures Step(old(State()), Mkdir(parent, name, freshId), r, State())
    {
      var found := LookupByParentAndName(files, parent, name);
      if found.Some? {
        return Fault(EEXIST);
      }
      var place := PlaceFor(State(), parent);
      if place.None? {
        return Fault(if parent == ROOT_INODE then EIO else ENOENT);
      }
      if !KeyFree(files, freshId, place.value.account) {
        return Fault(EIO);
      }
      var ino := nextRowid;
      files, nextRowid := files[ino := FolderRow(place.value, name, freshId)], nextRowid + 1;
      return Entry(ino);
    }

    method RenameEntry(parent: Inode, name: string, newParent: Inode, newName: string, now: int) returns (r: Reply)
      modifies this
      ensures Step(old(State()), Rename(parent, name, newParent, newName), r, State())
    {
      ghost var s := State();
      var source := LookupByParentAndName(files, parent, name);
      if source.None? {
        return Fault(ENOENT);
      }
      var target := LookupByParentAndName(files, newParent, newName);
      if target.Some? {
        return Fault(EEXIST);
      }
      var newParentId := None;
      if newParent != ROOT_INODE {
        if !Live(files, newParent) {
          return Fault(ENOENT);
        }
        newParentId := Some(files[newParent].id);
      }
      var m := source.value;
      var localPath := files[m].localPath;
      files := Renamed(files, m, newName, newParentId);
      EnqueueTask(files[m], TQ.Rename, localPath, now);
      assert RenameStep(s, parent, name, newParent, newName, m, State());
      return Done;
    }

    method UnlinkFile(parent: Inode, name: string, now: int) returns (r: Reply)
      modifies this
      ensures Step(old(State()), Unlink(parent, name), r, State())
    {
      ghost var s := State();
      var found := LookupByParentAndName(files, parent, name);
      if found.None? {
        return Fault(ENOENT);
      }
      var m := found.value;
      if files[m].kind.Folder? {
        return Fault(EISDIR);
      }
      EnqueueTask(files[m], TQ.Delete, files[m].localPath, now);
      files := Trashed(files, m);
      assert DeleteStep(s, m, State());
      return Done;
    }

    method RemoveDirectory(parent: Inode, name: string, now: int) returns (r: Reply)
      modifies this
      ensures Step(old(State()), Rmdir(parent, name), r, State())
    {
      ghost var s := State();
      var found := LookupByParentAndName(files, parent, name);
      if found.None? {
        return Fault(ENOENT);
      }
      var m := found.value;
      if !files[m].kind.Folder? {
        return Fault(ENOTDIR);
      }
      if HasChildren(files, m) {
        return Fault(ENOTEMPTY);
      }
      EnqueueTask(files[m], TQ.Delete, files[m].localPath, now);
      files := Trashed(files, m);
      assert DeleteStep(s, m, State());
      return Done;
    }

    method OpenFile(ino: Inode) returns (r: Reply)
      modifies this
      ensures Step(old(State()), Open(ino), r, State())
    {
      if ino == ROOT_INODE {
        return Fault(EISDIR);
      }
      if !Live(files, ino) {
        return Fault(ENOENT);
      }
      if files[ino].kind.Folder? {
        return Fault(EISDIR);
      }
      if files[ino].kind.Workspace? {
        return Fault(EOPNOTSUPP);
      }
      var fh := nextFh;
      nextFh := nextFh + 1;
      openFiles := openFiles[fh := Handle(ino, LocalPathOf(files[ino]))];
      return Opened(fh);
    }

    method FlushFile(ino: Inode, fh: nat, now: int) returns (r: Reply)
      modifies this
      ensures Step(old(State()), Flush(ino, fh), r, State())
    {
      if fh !in openFiles || openFiles[fh].ino != ino || !Live(files, ino) {
        return Fault(EBADF);
      }
      if files[ino].syncState.Modified? {
        EnqueueTask(files[ino], TQ.Upload, Some(openFiles[fh].localPath), now);
      }
      return Done;
    }

    method ReleaseFile(fh: nat) returns (r: Reply)
      modifies this
      ensures Step(old(State()), Release(fh), r, State())
    {
      openFiles := openFiles - {fh};
      return Done;
    }
  }

  /* ---- What every callback keeps ---- */

  ghost predicate Inv(s: Fs) {
    && Sound(s.files)
    && s.nextRowid >= 1
    && (forall i :: i in s.files ==> i < s.nextRowid)
    && (forall fh :: fh in s.openFiles ==> fh < s.nextFh)
  }

  lemma DeleteKeepsInv(s: Fs, m: Inode, s': Fs)
    requires Inv(s) && Live(s.files, m) && DeleteStep(s, m, s') && Childless(s.files, m)
    ensures Inv(s')
  {
    TrashSoundIff(s.files, m);
  }

  lemma FileIsChildless(t: Table, m: Inode)
    requires Sound(t) && Live(t, m) && !t[m].kind.Folder?
    ensures Childless(t, m)
  {
    forall c | Live(t, c) ensures !Under(t, m, c) {
      if Under(t, m, c) {
        UnderMeansEdge(t, m, c);
      }
    }
  }

  lemma RenameTargetIsGood(s: Fs, parent: Inode, name: string, newParent: Inode, newName: string, m: Inode, s': Fs)
    requires Inv(s) && Permitted(s, Rename(parent, name, newParent, newName))
    requires RenameStep(s, parent, name, newParent, newName, m, s')
    ensures GoodTarget(s.files, m, newName, if newParent == ROOT_INODE then None else Some(s.files[newParent].id), newParent)
  {
    DirectoryHasChain(s.files, newParent);
  }

  /** A create or mkdir that inserts a row. */
  predicate Inserts(s: Fs, row: Row, parent: Inode, s': Fs) {
    && PlaceFor(s, parent) == Some(Place(row.account, row.parent))
    && KeyFree(s.files, row.id, row.account) && !row.trashed
    && s'.files == s.files[s.nextRowid := row] && s'.nextRowid == s.nextRowid + 1
  }

  lemma InsertKeepsInv(s: Fs, row: Row, parent: Inode, s': Fs)
    requires Inv(s) && Inserts(s, row, parent, s')
    requires Live(s.files, parent) ==> s.files[parent].kind.Folder?
    requires forall c :: !Child(s.files, parent, row.name, c)
    requires forall fh :: fh in s'.openFiles ==> fh < s'.nextFh
    ensures Inv(s')
  {
    InsertSoundIff(s.files, s.nextRowid, row, parent);
  }

  lemma CreateKeepsInv(s: Fs, op: Op, r: Reply, s': Fs)
    requires op.Create? && Inv(s) && Permitted(s, op) && Step(s, op, r, s')
    ensures Inv(s')
  {
    if s' != s {
      InsertKeepsInv(s, FileRow(PlaceFor(s, op.parent).value, op.name, op.freshId), op.parent, s');
    }
  }

  lemma MkdirKeepsInv(s: Fs, op: Op, r: Reply, s': Fs)
    requires op.Mkdir? && Inv(s) && Permitted(s, op) && Step(s, op, r, s')
    ensures Inv(s')
  {
    if s' != s {
      InsertKeepsInv(s, FolderRow(PlaceFor(s, op.parent).value, op.name, op.freshId), op.parent, s');
    }
  }

  lemma RenameKeepsInv(s: Fs, op: Op, s': Fs)
    requires op.Rename? && Inv(s) && Permitted(s, op) && Step(s, op, Done, s')
    ensures Inv(s')
  {
    var m :| RenameStep(s, op.parent, op.name, op.newParent, op.newName, m, s');
    RenameTargetIsGood(s, op.parent, op.name, op.newParent, op.newName, m, s');
    RenameSoundIff(s.files, m, op.newName, if op.newParent == ROOT_INODE then None else Some(s.files[op.newParent].id));
  }

  /** The entry that a successful unlink or rmdir removes: the one at parent/name, and it is
      childless. */
  lemma RemovedEntry(s: Fs, op: Op, s': Fs) returns (m: Inode)
    requires Inv(s) && (op.Unlink? || op.Rmdir?) && Step(s, op, Done, s')
    ensures Child(s.files, op.parent, op.name, m) && DeleteStep(s, m, s') && Childless(s.files, m)
    ensures s.files[m].kind.Folder? <==> op.Rmdir?
  {
    if op.Unlink? {
      m :| Child(s.files, op.parent, op.name, m) && !s.files[m].kind.Folder? && DeleteStep(s, m, s');
      FileIsChildless(s.files, m);
    } else {
      m :| Child(s.files, op.parent, op.name, m) && s.files[m].kind.Folder? && !HasChildren(s.files, m) && DeleteStep(s, m, s');
      HasChildrenVersusListing(s.files, m);
    }
  }

  /** Every permitted callback keeps the tree sound, whatever it replies. */
  lemma StepKeepsInv(s: Fs, op: Op, r: Reply, s': Fs)
    requires Inv(s) && Permitted(s, op) && Step(s, op, r, s')
    ensures Inv(s')
  {
    match op
    case Create(_, _, _, _) => CreateKeepsInv(s, op, r, s');
    case Mkdir(_, _, _) => MkdirKeepsInv(s, op, r, s');
    case Rename(_, _, _, _) =>
      if r.Done? {
        RenameKeepsInv(s, op, s');
      }
    case Unlink(_, _) =>
      if r.Done? {
        var m := RemovedEntry(s, op, s');
        DeleteKeepsInv(s, m, s');
      }
    case Rmdir(_, _) =>
      if r.Done? {
        var m := RemovedEntry(s, op, s');
        DeleteKeepsInv(s, m, s');
      }
    case _ =>
  }

  /** A run of callbacks: the states around each one, and its reply. */
  ghost predicate IsRun(states: seq<Fs>, ops: seq<Op>, replies: seq<Reply>) {
    && |states| == |ops| + 1 == |replies| + 1
    && forall k :: 0 <= k < |ops| ==> Moves(states, ops, replies, k)
  }

  ghost predicate Moves(states: seq<Fs>, ops: seq<Op>, replies: seq<Reply>, k: nat)
    requires k < |ops| < |states| && k < |replies|
  {
    Permitted(states[k], ops[k]) && Step(states[k], ops[k], replies[k], states[k + 1])
  }

  /** Every state of every run is sound. */
  lemma {:induction false} RunKeepsInv(states: seq<Fs>, ops: seq<Op>, replies: seq<Reply>, k: nat)
    requires IsRun(states, ops, replies) && Inv(states[0]) && k < |states|
    ensures Inv(states[k])
  {
    if k > 0 {
      RunKeepsInv(states, ops, replies, k - 1);
      assert Moves(states, ops, replies, k - 1);
      StepKeepsInv(states[k - 1], ops[k - 1], replies[k - 1], states[k]);
    }
  }

  /** Rows are never lost, only name, parent, deletion mark and state change, deletion is final
      and so is "modified". */
  predicate KeepsRows(a: Table, b: Table) {
    forall i :: i in a ==>
      && i in b
      && b[i] == a[i].(name := b[i].name, parent := b[i].parent, trashed := b[i].trashed, syncState := b[i].syncState)
      && (a[i].trashed ==> b[i].trashed)
      && (b[i].syncState == a[i].syncState || b[i].syncState == Modified)
  }

  /** Open handles stay what they are, and handle numbers are never handed out twice. */
  predicate KeepsHandles(a: Fs, b: Fs) {
    && a.nextFh <= b.nextFh
    && forall fh :: fh in b.openFiles && fh < a.nextFh ==> fh in a.openFiles && b.openFiles[fh] == a.openFiles[fh]
  }

  /** Queued tasks stay queued, and new ones are pending, untried and of the highest priority. */
  predicate KeepsQueue(a: TQ.Rows, b: TQ.Rows) {
    && a <= b
    && forall k :: |a| <= k < |b| ==> b[k].status.Pending? && b[k].retryCount == 0 && b[k].priority == 1
  }

  predicate Extends(a: Fs, b: Fs) {
    KeepsRows(a.files, b.files) && KeepsHandles(a, b) && KeepsQueue(a.queue, b.queue) && a.nextRowid <= b.nextRowid
  }

  predicate GrowsTable(s: Fs, s': Fs) {
    KeepsRows(s.files, s'.files) && s.nextRowid <= s'.nextRowid
  }

  lemma InsertGrowsTable(s: Fs, op: Op, r: Reply, s': Fs)
    requires (op.Create? || op.Mkdir?) && Inv(s) && Step(s, op, r, s')
    ensures GrowsTable(s, s')
  {
    assert s.nextRowid !in s.files;
  }

  lemma RenameGrowsTable(s: Fs, op: Op, r: Reply, s': Fs)
    requires op.Rename? && Step(s, op, r, s')
    ensures GrowsTable(s, s')
  {
    if r.Done? {
      var m :| RenameStep(s, op.parent, op.name, op.newParent, op.newName, m, s');
    }
  }

  lemma DeleteGrowsTable(s: Fs, op: Op, r: Reply, s': Fs)
    requires (op.Unlink? || op.Rmdir?) && Inv(s) && Step(s, op, r, s')
    ensures GrowsTable(s, s')
  {
    if r.Done? {
      var m := RemovedEntry(s, op, s');
    }
  }

  lemma StepKeepsRows(s: Fs, op: Op, r: Reply, s': Fs)
    requires Inv(s) && Step(s, op, r, s')
    ensures GrowsTable(s, s')
  {
    match op
    case Create(_, _, _, _) => InsertGrowsTable(s, op, r, s');
    case Mkdir(_, _, _) => InsertGrowsTable(s, op, r, s');
    case Rename(_, _, _, _) => RenameGrowsTable(s, op, r, s');
    case Unlink(_, _) => DeleteGrowsTable(s, op, r, s');
    case Rmdir(_, _) => DeleteGrowsTable(s, op, r, s');
    case _ =>
  }

  lemma StepKeepsHandles(s: Fs, op: Op, r: Reply, s': Fs)
    requires Inv(s) && Step(s, op, r, s')
    ensures KeepsHandles(s, s')
  {
  }

  lemma StepKeepsQueue(s: Fs, op: Op, r: Reply, s': Fs)
    requires Step(s, op, r, s')
    ensures KeepsQueue(s.queue, s'.queue)
  {
  }

  lemma {:induction false} RunExtends(states: seq<Fs>, ops: seq<Op>, replies: seq<Reply>, j: nat, k: nat)
    requires IsRun(states, ops, replies) && Inv(states[0]) && j <= k < |states|
    ensures Extends(states[j], states[k])
    decreases k - j
  {
    if j < k {
      RunKeepsInv(states, ops, replies, k - 1);
      RunExtends(states, ops, replies, j, k - 1);
      assert Moves(states, ops, replies, k - 1);
      StepKeepsRows(states[k - 1], ops[k - 1], replies[k - 1], states[k]);
      StepKeepsHandles(states[k - 1], ops[k - 1], replies[k - 1], states[k]);
      StepKeepsQueue(states[k - 1], ops[k - 1], replies[k - 1], states[k]);
    }
  }

  /** The rename callback seen through paths: the entry found at `parent`/`name` ends
      up at `newParent`/`newName` with its whole subtree, and nothing else moves. */
  lemma RenameCallbackMovesSubtree(s: Fs, parent: Inode, name: string, newParent: Inode, newName: string, s': Fs)
      returns (m: Inode)
    requires Inv(s) && Permitted(s, Rename(parent, name, newParent, newName))
    requires Step(s, Rename(parent, name, newParent, newName), Done, s')
    ensures Sound(s'.files) && Live(s.files, m) && HasChain(s.files, parent) && HasChain(s.files, newParent)
    ensures PathOf(s.files, m) == PathOf(s.files, parent) + [name]
    ensures HasChain(s'.files, m) && PathOf(s'.files, m) == PathOf(s.files, newParent) + [newName]
    ensures forall e :: Live(s.files, e) <==> Live(s'.files, e)
    ensures forall e :: Live(s.files, e) ==> FollowsOrStays(s.files, s'.files, m, e)
  {
    m :| RenameStep(s, parent, name, newParent, newName, m, s');
    RenameTargetIsGood(s, parent, name, newParent, newName, m, s');
    var newId := if newParent == ROOT_INODE then None else Some(s.files[newParent].id);
    RenameSoundIff(s.files, m, newName, newId);
    ChildPath(s.files, parent, name, m);
    RenameMovesOnlySubtree(s.files, m, newName, newId, newParent);
  }

  /** A rename marks its entry as modified, touches no other row, and queues one task for it. */
  lemma RenameCallbackRow(s: Fs, op: Op, s': Fs) returns (m: Inode)
    requires op.Rename? && Step(s, op, Done, s')
    ensures Child(s.files, op.parent, op.name, m)
    ensures s'.files.Keys == s.files.Keys && s'.files[m].name == op.newName && s'.files[m].syncState == Modified
    ensures forall e :: e in s.files && e != m ==> s'.files[e] == s.files[e]
    ensures |s'.queue| == |s.queue| + 1 && s.queue <= s'.queue
    ensures var task := s'.queue[|s.queue|];
      && task.operation.Rename? && task.fileId == Some(s.files[m].id) && task.account == s.files[m].account
      && task.localPath == s.files[m].localPath
  {
    m :| RenameStep(s, op.parent, op.name, op.newParent, op.newName, m, s');
  }

  /** Entry `i` is new, at parent/name, and nobody else moves. */
  ghost predicate AddsEntry(s: Fs, parent: Inode, name: string, i: Inode, s': Fs) {
    && Sound(s'.files) && i !in s.files
    && HasChain(s.files, parent) && HasChain(s'.files, i)
    && PathOf(s'.files, i) == PathOf(s.files, parent) + [name]
    && (forall e :: Live(s'.files, e) <==> Live(s.files, e) || e == i)
    && (forall e :: Live(s.files, e) ==> KeepsPath(s.files, s'.files, e))
  }

  ghost predicate KeepsPath(t: Table, t': Table, e: Inode) {
    HasChain(t, e) && HasChain(t', e) && PathOf(t', e) == PathOf(t, e)
  }

  lemma InsertAddsEntry(s: Fs, row: Row, parent: Inode, s': Fs)
    requires Inv(s) && Inserts(s, row, parent, s') && Sound(s'.files)
    ensures AddsEntry(s, parent, row.name, s.nextRowid, s')
  {
    InsertSoundIff(s.files, s.nextRowid, row, parent);
    DirectoryHasChain(s.files, parent);
    forall e | Live(s.files, e) ensures KeepsPath(s.files, s'.files, e) {
      InsertPaths(s.files, s.nextRowid, row, e);
    }
    InsertedPath(s.files, s.nextRowid, row, parent);
  }

  /** A successful `create` adds one file at parent/name and moves nobody. */
  lemma CreateCallback(s: Fs, op: Op, r: Reply, s': Fs)
    requires Inv(s) && Permitted(s, op) && Step(s, op, r, s') && op.Create? && r.Created?
    ensures AddsEntry(s, op.parent, op.name, r.ino, s') && s'.queue == s.queue
    ensures var row := s'.files[r.ino];
      && row.kind.Regular? && row.id == op.freshId && row.syncState.Modified?
      && row.account == (if op.parent == ROOT_INODE && s.accounts != [] then s.accounts[0] else s'.files[op.parent].account)
      && row.localPath == Some("cache/" + row.account + "/" + row.id)
      && s'.openFiles == s.openFiles[r.fh := Handle(r.ino, row.localPath.value)] && r.fh !in s.openFiles
  {
    CreateKeepsInv(s, op, r, s');
    InsertAddsEntry(s, FileRow(PlaceFor(s, op.parent).value, op.name, op.freshId), op.parent, s');
  }

  /** A successful `mkdir` adds one folder at parent/name and moves nobody. */
  lemma MkdirCallback(s: Fs, op: Op, r: Reply, s': Fs)
    requires Inv(s) && Permitted(s, op) && Step(s, op, r, s') && op.Mkdir? && r.Entry?
    ensures AddsEntry(s, op.parent, op.name, r.ino, s') && s'.queue == s.queue && s'.openFiles == s.openFiles
    ensures var row := s'.files[r.ino];
      && row.kind.Folder? && row.id == op.freshId && row.syncState.CloudOnly? && row.localPath.None?
      && row.account == (if op.parent == ROOT_INODE && s.accounts != [] then s.accounts[0] else s'.files[op.parent].account)
  {
    MkdirKeepsInv(s, op, r, s');
    InsertAddsEntry(s, FolderRow(PlaceFor(s, op.parent).value, op.name, op.freshId), op.parent, s');
  }

  /** A successful `unlink` or `rmdir` removes exactly the entry at parent/name. */
  lemma DeleteCallback(s: Fs, op: Op, s': Fs) returns (m: Inode)
    requires Inv(s) && (op.Unlink? || op.Rmdir?) && Step(s, op, Done, s')
    ensures Sound(s'.files) && HasChain(s.files, op.parent) && HasChain(s.files, m)
    ensures PathOf(s.files, m) == PathOf(s.files, op.parent) + [op.name]
    ensures s.files[m].kind.Folder? <==> op.Rmdir?
    ensures forall e :: Live(s'.files, e) <==> Live(s.files, e) && e != m
    ensures forall e :: Live(s'.files, e) ==> KeepsPath(s.files, s'.files, e)
    ensures |s'.queue| == |s.queue| + 1 && s.queue <= s'.queue
    ensures var task := s'.queue[|s.queue|];
      && task.operation.Delete? && task.fileId == Some(s.files[m].id) && task.account == s.files[m].account
      && task.localPath == s.files[m].localPath
  {
    m := RemovedEntry(s, op, s');
    DeleteKeepsInv(s, m, s');
    ChildPath(s.files, op.parent, op.name, m);
    forall e | Live(s'.files, e) ensures KeepsPath(s.files, s'.files, e) {
      TrashPaths(s.files, m, e);
    }
  }

  /* ---- Uploads of edited files ---- */

  /** A flush that succeeds queues an upload of the file exactly when the row says "modified". */
  lemma FlushQueuesIffModified(s: Fs, ino: Inode, fh: nat, s': Fs)
    requires Step(s, Flush(ino, fh), Done, s')
    ensures Live(s.files, ino) && fh in s.openFiles && s.openFiles[fh].ino == ino
    ensures s'.queue != s.queue <==> s.files[ino].syncState == Modified
    ensures s.files[ino].syncState == Modified ==>
      && |s'.queue| == |s.queue| + 1 && s.queue <= s'.queue
      && var task := s'.queue[|s.queue|];
         && task.status.Pending? && task.operation.Upload?
         && task.fileId == Some(s.files[ino].id) && task.account == s.files[ino].account
         && task.localPath == Some(s.openFiles[fh].localPath)
    ensures s' == s.(queue := s'.queue)
  {
  }

  /** In every run: once a file was created, each flush of its handle that succeeds queues an
      upload of it, whatever happened to it in between. */
  lemma {:induction false} CreatedFileIsUploaded(states: seq<Fs>, ops: seq<Op>, replies: seq<Reply>, k: nat, j: nat)
    requires IsRun(states, ops, replies) && Inv(states[0]) && k < j < |ops|
    requires ops[k].Create? && replies[k].Created?
    requires ops[j] == Flush(replies[k].ino, replies[k].fh) && replies[j].Done?
    ensures |states[j + 1].queue| == |states[j].queue| + 1
    ensures var task := states[j + 1].queue[|states[j].queue|];
      task.operation.Upload? && task.status.Pending? && task.fileId == Some(ops[k].freshId)
  {
    RunKeepsInv(states, ops, replies, k);
    assert Moves(states, ops, replies, k) && Moves(states, ops, replies, j);
    CreateCallback(states[k], ops[k], replies[k], states[k + 1]);
    RunExtends(states, ops, replies, k + 1, j);
    FlushQueuesIffModified(states[j], replies[k].ino, replies[k].fh, states[j + 1]);
  }

  /** In every run: a released handle is gone for good. */
  lemma ReleaseIsFinal(states: seq<Fs>, ops: seq<Op>, replies: seq<Reply>, k: nat, j: nat, ino: Inode)
    requires IsRun(states, ops, replies) && Inv(states[0]) && k < j < |ops|
    requires ops[k].Release? && ops[k].fh in states[k].openFiles && ops[j] == Flush(ino, ops[k].fh)
    ensures replies[j] == Fault(EBADF)
  {
    RunKeepsInv(states, ops, replies, k);
    assert Moves(states, ops, replies, k) && Moves(states, ops, replies, j);
    RunExtends(states, ops, replies, k + 1, j);
  }

  /* ---- Which reply when ---- */

  ghost predicate HasChild(t: Table, p: Inode, name: string, folder: bool) {
    exists c :: Child(t, p, name, c) && (t[c].kind == Folder <==> folder)
  }

  /** Opening: by what the inode is. */
  lemma OpenReplies(s: Fs, ino: Inode, r: Reply, s': Fs)
    requires Inv(s) && Step(s, Open(ino), r, s')
    ensures r.Opened? <==> Live(s.files, ino) && s.files[ino].kind == Regular
    ensures r == Fault(EISDIR) <==> ino == 0 || (Live(s.files, ino) && s.files[ino].kind == Folder)
    ensures r == Fault(EOPNOTSUPP) <==> Live(s.files, ino) && s.files[ino].kind == Workspace
    ensures r == Fault(ENOENT) <==> ino != 0 && !Live(s.files, ino)
    ensures r.Opened? ==>
      && r.fh !in s.openFiles && r.fh in s'.openFiles && s'.openFiles[r.fh].ino == ino
      && (s.files[ino].localPath.Some? ==> s'.openFiles[r.fh].localPath == s.files[ino].localPath.value)
      && (s.files[ino].localPath.None? ==> s'.openFiles[r.fh].localPath == "cache/" + s.files[ino].account + "/" + s.files[ino].id)
    ensures !r.Opened? ==> s' == s
  {
  }

  /** Flushing and releasing: by the handle. */
  lemma HandleReplies(s: Fs, ino: Inode, fh: nat, r: Reply, s': Fs)
    ensures Step(s, Flush(ino, fh), r, s') ==>
      && (r == Done <==> fh in s.openFiles && s.openFiles[fh].ino == ino && Live(s.files, ino))
      && (r != Done ==> r == Fault(EBADF) && s' == s)
    ensures Step(s, Release(fh), r, s') ==>
      r == Done && s'.openFiles.Keys == s.openFiles.Keys - {fh} && s' == s.(openFiles := s'.openFiles)
  {
  }

  /** These callbacks the kernel may make at any time. */
  lemma AlwaysPermitted(s: Fs, op: Op)
    requires op.Unlink? || op.Rmdir? || op.Open? || op.Flush? || op.Release?
    ensures Permitted(s, op)
  {
  }

  /** Removing: by what is at parent/name. */
  lemma RemoveReplies(s: Fs, op: Op, r: Reply, s': Fs)
    requires Inv(s) && (op.Unlink? || op.Rmdir?) && Step(s, op, r, s')
    ensures var file, folder := HasChild(s.files, op.parent, op.name, false), HasChild(s.files, op.parent, op.name, true);
      && (r == Fault(ENOENT) <==> !file && !folder)
      && (op.Unlink? ==> (r == Done <==> file) && (r == Fault(EISDIR) <==> folder))
      && (op.Rmdir? ==> (r == Fault(ENOTDIR) <==> file) && (r == Done || r == Fault(ENOTEMPTY) <==> folder))
    ensures r != Done ==> s' == s
  {
    if c :| Child(s.files, op.parent, op.name, c) {
      assert forall d :: Child(s.files, op.parent, op.name, d) ==> d == c;
    }
  }

  /** Making: by the name, the parent, the key and the disk. */
  lemma MakeReplies(s: Fs, op: Op, r: Reply, s': Fs)
    requires Inv(s) && (op.Create? || op.Mkdir?) && Step(s, op, r, s')
    ensures var taken := op.Mkdir? && exists c :: Child(s.files, op.parent, op.name, c);
      var placed := if op.parent == 0 then s.accounts != [] else Live(s.files, op.parent);
      && (r == Fault(EEXIST) <==> taken)
      && (r == Fault(ENOENT) <==> !taken && op.parent != 0 && !placed)
      && (r.Entry? || r.Created? ==> !taken && placed)
      && (op.Create? && op.disk == Fine && placed ==>
            (r.Created? <==> KeyFree(s.files, op.freshId, PlaceFor(s, op.parent).value.account)))
      && (op.Mkdir? && !taken && placed ==>
            (r.Entry? <==> KeyFree(s.files, op.freshId, PlaceFor(s, op.parent).value.account)))
      && (op.Create? && op.disk != Fine ==> !r.Created?)
      && (r.Fault? ==> r.errno in {EEXIST, ENOENT, EIO})
    ensures r.Fault? && !(op.Create? && op.disk == NoFile) ==> s' == s
  {
  }

  /** Renaming: by what is at both ends. */
  lemma RenameReplies(s: Fs, op: Op, r: Reply, s': Fs)
    requires Inv(s) && op.Rename? && Step(s, op, r, s')
    ensures var source, target := exists c :: Child(s.files, op.parent, op.name, c), exists c :: Child(s.files, op.newParent, op.newName, c);
      && (r == Fault(EEXIST) <==> source && target)
      && (r == Done <==> source && !target && (op.newParent == 0 || Live(s.files, op.newParent)))
      && (r == Fault(ENOENT) <==> !source || (!target && op.newParent != 0 && !Live(s.files, op.newParent)))
    ensures r != Done ==> s' == s
  {
  }

  /* ---- Without the kernel's guarantees ---- */

  /** `create` checks no name and no parent kind.  In every case it keeps the tree sound
      exactly when it inserts no row, or a lookup in a directory would have failed. */
  lemma CreateSoundIff(s: Fs, op: Op, r: Reply, s': Fs)
    requires Inv(s) && op.Create? && Step(s, op, r, s')
    ensures var place := PlaceFor(s, op.parent);
      var inserts := place.Some? && !op.disk.NoDirectory? && KeyFree(s.files, op.freshId, place.value.account);
      Sound(s'.files) <==>
        (inserts ==> IsDirectory(s.files, op.parent) && forall c :: !Child(s.files, op.parent, op.name, c))
  {
    if s' != s {
      InsertSoundIff(s.files, s.nextRowid, FileRow(PlaceFor(s, op.parent).value, op.name, op.freshId), op.parent);
    }
  }

  /** One file at the root, and a second one of the same name created beside it. */
  lemma CreateDuplicates(s: Fs) returns (s': Fs)
    requires s.files == map[1 := Row("A", "a", "x", Regular, None, false, None, CloudOnly)]
    requires s.accounts == ["a"] && s.nextRowid == 2 && s.openFiles == map[]
    ensures Inv(s) && Step(s, Create(ROOT_INODE, "x", "B", Fine), Created(2, s.nextFh), s')
    ensures Child(s'.files, ROOT_INODE, "x", 1) && Child(s'.files, ROOT_INODE, "x", 2) && !Sound(s'.files)
  {
    assert Edge(s.files, ROOT_INODE, 1) && IsChain(s.files, Root);
    assert Reaches(s.files, Down(Root, 1), 1);
    s' := s.(files := s.files[2 := FileRow(Place("a", None), "x", "B")], nextRowid := 3,
             openFiles := map[s.nextFh := Handle(2, CachePath("a", "B"))], nextFh := s.nextFh + 1);
    assert Child(s.files, ROOT_INODE, "x", 1);
    CreateSoundIff(s, Create(ROOT_INODE, "x", "B", Fine), Created(2, s.nextFh), s');
  }

  /** Within one account, `rename` keeps the tree sound exactly when the new parent
      is a directory outside the moved subtree. */
  lemma RenameSoundIffTarget(s: Fs, parent: Inode, name: string, newParent: Inode, newName: string, m: Inode, s': Fs)
    requires Inv(s) && RenameStep(s, parent, name, newParent, newName, m, s')
    requires newParent == ROOT_INODE || s.files[newParent].account == s.files[m].account
    ensures Sound(s'.files) <==> IsDirectory(s.files, newParent) && Outside(s.files, m, newParent)
  {
    var newId := if newParent == ROOT_INODE then None else Some(s.files[newParent].id);
    RenameSoundIff(s.files, m, newName, newId);
    if p :| GoodTarget(s.files, m, newName, newId, p) {
      assert p == newParent;
    }
    if IsDirectory(s.files, newParent) && Outside(s.files, m, newParent) {
      assert GoodTarget(s.files, m, newName, newId, newParent);
    }
  }

  /** Two accounts with a folder each, and a file in the first one. */
  const TWO_ACCOUNTS: Table := map[
    1 := Row("F", "a", "docs", Folder, None, false, None, CloudOnly),
    2 := Row("G", "b", "work", Folder, None, false, None, CloudOnly),
    3 := Row("X", "a", "x", Regular, Some("F"), false, None, CloudOnly)]

  lemma TwoAccountsAreSound()
    ensures Sound(TWO_ACCOUNTS)
  {
    var t := TWO_ACCOUNTS;
    assert Edge(t, ROOT_INODE, 1) && Edge(t, ROOT_INODE, 2) && Edge(t, 1, 3);
    assert IsChain(t, Root) && IsChain(t, Down(Root, 1)) && IsChain(t, Down(Root, 2));
    assert Reaches(t, Down(Root, 1), 1) && Reaches(t, Down(Root, 2), 2) && Reaches(t, Down(Down(Root, 1), 3), 3);
  }

  /** Moving the file into the folder of the other account succeeds and leaves it without
      any path. */
  lemma RenameAcrossAccountsLosesEntry(s: Fs, now: int) returns (s': Fs)
    requires s.files == TWO_ACCOUNTS
    ensures Sound(s.files) && Step(s, Rename(1, "x", 2, "x"), Done, s')
    ensures Live(s'.files, 3) && !HasChain(s'.files, 3)
  {
    TwoAccountsAreSound();
    var t' := Renamed(s.files, 3, "x", Some("G"));
    s' := s.(files := t', queue := s.queue + [NewTask(t'[3], TQ.Rename, None, now)]);
    assert RenameStep(s, 1, "x", 2, "x", 3, s');
    assert forall p :: !Under(t', p, 3);
    assert forall ch :: !Reaches(t', ch, 3);
  }

  /** In a sound tree, `rmdir` of a folder that lists nothing is refused exactly when another
      account has live rows under the same folder id. */
  lemma RmdirRefusesEmptyIff(s: Fs, parent: Inode, name: string, m: Inode)
    requires Inv(s) && Child(s.files, parent, name, m) && s.files[m].kind.Folder? && Childless(s.files, m)
    ensures Step(s, Rmdir(parent, name), Fault(ENOTEMPTY), s)
            <==> exists c :: Live(s.files, c) && s.files[c].account != s.files[m].account && s.files[c].parent == Some(s.files[m].id)
  {
    HasChildrenVersusListing(s.files, m);
    if Step(s, Rmdir(parent, name), Fault(ENOTEMPTY), s) {
      var c :| Child(s.files, parent, name, c) && HasChildren(s.files, c);
      assert c == m;
    }
  }

  /** A folder shared into two accounts, with a file in the second one. */
  const SHARED_FOLDER: Table := map[
    1 := Row("F", "a", "shared", Folder, None, false, None, CloudOnly),
    2 := Row("F", "b", "shared (b)", Folder, None, false, None, CloudOnly),
    3 := Row("X", "b", "x", Regular, Some("F"), false, None, CloudOnly)]

  lemma SharedFolderIsSound()
    ensures Sound(SHARED_FOLDER)
  {
    var t := SHARED_FOLDER;
    assert Edge(t, ROOT_INODE, 1) && Edge(t, ROOT_INODE, 2) && Edge(t, 2, 3);
    assert IsChain(t, Root) && IsChain(t, Down(Root, 1)) && IsChain(t, Down(Root, 2));
    assert Reaches(t, Down(Root, 1), 1) && Reaches(t, Down(Root, 2), 2) && Reaches(t, Down(Down(Root, 2), 3), 3);
  }

  /** `rmdir` in the first account is refused although the folder lists nothing. */
  lemma EmptyFolderRefused(s: Fs)
    requires s.files == SHARED_FOLDER
    ensures Sound(s.files) && Child(s.files, ROOT_INODE, "shared", 1)
    ensures s.files[1].kind.Folder? && Childless(s.files, 1)
    ensures Step(s, Rmdir(ROOT_INODE, "shared"), Fault(ENOTEMPTY), s)
  {
    SharedFolderIsSound();
    assert HasChildren(s.files, 1) by { assert s.files[3].parent == Some(s.files[1].id); }
  }

  /* ---- What becomes of a rename task ---- */

  /** The task that a successful rename queues is pending, and the engine marks it completed
      whether or not its account has a client: the rename does not reach Drive. */
  lemma RenameTaskIsDropped(s: Fs, op: Op, s': Fs, env: TQ.TurnEnv)
    requires op.Rename? && Step(s, op, Done, s') && env.closeOk
    ensures |s'.queue| == |s.queue| + 1 && s'.queue[|s.queue|].status.Pending? && s'.queue[|s.queue|].operation.Rename?
    ensures var i := |s.queue|;
      TQ.AfterAttempt(s'.queue, i, TQ.TurnOutcome(s'.queue[i], env)) == s'.queue[i := s'.queue[i].(status := TQ.Completed)]
  {
    var m :| RenameStep(s, op.parent, op.name, op.newParent, op.newName, m, s');
    var task := s'.queue[|s.queue|];
    assert task == NewTask(s'.files[m], TQ.Rename, s.files[m].localPath, task.createdAt);
  }
}
