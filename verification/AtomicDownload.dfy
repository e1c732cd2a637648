/** Downloads seen by concurrent readers: one downloader streams into a temporary
    file and renames it onto the target, while VFS reads open the target at any time.

    Files are modelled down to the inode, because a reader that has the old file open
    keeps reading it after the rename, and because creating the temporary file over a
    leftover of a crash truncates that very inode. */
module AtomicDownload {
  import opened Prelude
  import VfsTree

  type Ino = nat

  datatype Phase =
    | Idle
    | Writing(stream: seq<bytes>, done: nat)
    | Failing

  /** The directory entries of target and temporary file, inode contents, the reader
      handles, and every version that was ever published at the target. */
  datatype Disk = Disk(
    target: Option<Ino>, temp: Option<Ino>, data: map<Ino, bytes>, next: Ino, phase: Phase,
    readers: map<nat, Ino>, published: seq<bytes>)

  datatype Event =
    | Begin(stream: seq<bytes>)      // the response starts, the temporary file is created
    | Write                          // the next block is written
    | ShortWrite(n: nat)             // writing the next block fails after n bytes
    | Publish                        // stream ended: rename onto the target
    | Cleanup(removed: bool)         // error path: remove the temporary file
    | Crash
    | OpenReader(h: nat)
    | CloseReader(h: nat)

  predicate CanStep(d: Disk, e: Event) {
    match e
    case Begin(_) => d.phase.Idle?
    case Write => d.phase.Writing? && d.phase.done < |d.phase.stream|
    case ShortWrite(n) => d.phase.Writing? && d.phase.done < |d.phase.stream| && n <= |d.phase.stream[d.phase.done]|
    case Publish => d.phase.Writing? && d.phase.done == |d.phase.stream|
    case Cleanup(_) => true
    case Crash => true
    case OpenReader(_) => d.target.Some?
    case CloseReader(h) => h in d.readers
  }

  predicate IsLatest(v: bytes, published: seq<bytes>) {
    published != [] && v == published[|published| - 1]
  }

  /** Versions are whole: the target holds the latest one, readers hold one, and the
      temporary file is nobody else's inode. */
  predicate Inv(d: Disk) {
    && (forall i :: i in d.data ==> i < d.next)
    && (d.target.Some? ==> d.target.value in d.data && IsLatest(d.data[d.target.value], d.published) && d.temp != d.target)
    && (d.temp.Some? ==> d.temp.value in d.data)
    && (forall h :: h in d.readers ==>
          d.readers[h] in d.data && d.data[d.readers[h]] in d.published && d.temp != Some(d.readers[h]))
    && (!d.phase.Idle? ==> d.temp.Some?)
    && (d.phase.Writing? ==>
          d.phase.done <= |d.phase.stream| && d.data[d.temp.value] == Concat(d.phase.stream[..d.phase.done]))
  }

  function Append(d: Disk, block: bytes): map<Ino, bytes>
    requires d.temp.Some? && d.temp.value in d.data
  {
    d.data[d.temp.value := d.data[d.temp.value] + block]
  }

  function Step(d: Disk, e: Event): Disk
    requires Inv(d) && CanStep(d, e)
  {
    match e
    case Begin(stream) =>
      if d.temp.Some? then d.(data := d.data[d.temp.value := []], phase := Writing(stream, 0))
      else d.(temp := Some(d.next), data := d.data[d.next := []], next := d.next + 1, phase := Writing(stream, 0))
    case Write =>
      d.(data := Append(d, d.phase.stream[d.phase.done]), phase := d.phase.(done := d.phase.done + 1))
    case ShortWrite(n) =>
      d.(data := Append(d, d.phase.stream[d.phase.done][..n]), phase := Failing)
    case Publish =>
      d.(target := d.temp, temp := None, phase := Idle, published := d.published + [d.data[d.temp.value]])
    case Cleanup(removed) => d.(temp := if removed then None else d.temp, phase := Idle)
    case Crash => d.(phase := Idle)
    case OpenReader(h) => d.(readers := d.readers[h := d.target.value])
    case CloseReader(h) => d.(readers := d.readers - {h})
  }

  lemma StepKeepsInv(d: Disk, e: Event)
    requires Inv(d) && CanStep(d, e)
    ensures Inv(Step(d, e))
    ensures e.Publish? ==> Step(d, e).published == d.published + [Concat(d.phase.stream)]
    ensures !e.Publish? ==> Step(d, e).published == d.published
  {
    match e
    case Write =>
      var k := d.phase.done;
      assert d.phase.stream[..k + 1] == d.phase.stream[..k] + [d.phase.stream[k]];
      ConcatSnoc(d.phase.stream[..k], d.phase.stream[k]);
    case Publish =>
      assert d.phase.stream[..d.phase.done] == d.phase.stream;
      assert d.data[d.temp.value] in d.published + [d.data[d.temp.value]];
    case _ =>
  }

  /** What the environment may do at any moment: a crash leaves everything on disk and ends the
      download, a write may break off after any number of bytes, readers come and go. */
  lemma AnythingMayHappen(d: Disk, n: nat, h: nat)
    requires Inv(d)
    ensures CanStep(d, Crash) && Step(d, Crash) == d.(phase := Idle)
    ensures CanStep(d, Cleanup(true)) && Step(d, Cleanup(true)).temp.None? && Step(d, Cleanup(true)).phase.Idle?
    ensures CanStep(d, Cleanup(false)) && Step(d, Cleanup(false)).temp == d.temp
    ensures d.phase.Writing? && d.phase.done < |d.phase.stream| && n <= |d.phase.stream[d.phase.done]| ==>
      CanStep(d, ShortWrite(n)) && var d' := Step(d, ShortWrite(n));
      d'.data[d.temp.value] == Concat(d.phase.stream[..d.phase.done]) + d.phase.stream[d.phase.done][..n]
    ensures d.target.Some? ==>
      CanStep(d, OpenReader(h)) && var d' := Step(d, OpenReader(h)); h in d'.readers && d'.readers[h] == d.target.value
    ensures h in d.readers ==> CanStep(d, CloseReader(h)) && Step(d, CloseReader(h)).readers.Keys == d.readers.Keys - {h}
  {
  }

  /* ---- Runs ---- */

  predicate CanRun(d: Disk, es: seq<Event>)
    requires Inv(d)
    decreases |es|
  {
    es == [] || (CanStep(d, es[0]) && (StepKeepsInv(d, es[0]); CanRun(Step(d, es[0]), es[1..])))
  }

  function Run(d: Disk, es: seq<Event>): (d': Disk)
    requires Inv(d) && CanRun(d, es)
    ensures Inv(d')
    decreases |es|
  {
    if es == [] then d else (StepKeepsInv(d, es[0]); Run(Step(d, es[0]), es[1..]))
  }

  /** `v` is the whole of a stream that some download of the run received. */
  predicate WholeStream(d: Disk, es: seq<Event>, v: bytes) {
    || (d.phase.Writing? && v == Concat(d.phase.stream))
    || exists k :: 0 <= k < |es| && es[k].Begin? && v == Concat(es[k].stream)
  }

  /** Whatever fails or crashes, the versions published in a run are the earlier ones
      followed by whole streams. */
  lemma {:induction false} PublishedAreWhole(d: Disk, es: seq<Event>)
    requires Inv(d) && CanRun(d, es)
    ensures d.published <= Run(d, es).published
    ensures forall k :: |d.published| <= k < |Run(d, es).published| ==> WholeStream(d, es, Run(d, es).published[k])
    decreases |es|
  {
    if es != [] {
      StepKeepsInv(d, es[0]);
      var mid, rest := Step(d, es[0]), es[1..];
      PublishedAreWhole(mid, rest);
      var last := Run(d, es);
      assert last == Run(mid, rest);
      forall k | |d.published| <= k < |last.published| ensures WholeStream(d, es, last.published[k]) {
        if k >= |mid.published| {
          WholeStreamEarlier(d, es, last.published[k]);
        }
      }
    }
  }

  lemma WholeStreamEarlier(d: Disk, es: seq<Event>, v: bytes)
    requires Inv(d) && es != [] && CanStep(d, es[0]) && WholeStream(Step(d, es[0]), es[1..], v)
    ensures WholeStream(d, es, v)
  {
    var mid, rest := Step(d, es[0]), es[1..];
    if mid.phase.Writing? && v == Concat(mid.phase.stream) {
      assert es[0].Begin? || d.phase.Writing?;
    } else {
      var k :| 0 <= k < |rest| && rest[k].Begin? && v == Concat(rest[k].stream);
      assert es[k + 1] == rest[k];
    }
  }

  /** At every moment the target is absent or holds the latest version published: its earlier
      content as long as the run has published nothing, a whole stream from then on. */
  lemma TargetIsAlwaysWhole(d: Disk, es: seq<Event>)
    requires Inv(d) && CanRun(d, es) && d.phase.Idle?
    ensures var d' := Run(d, es);
      d'.target.Some? ==>
        && d'.target.value in d'.data
        && var v := d'.data[d'.target.value];
           && IsLatest(v, d'.published)
           && if d'.published == d.published then IsLatest(v, d.published)
              else exists k :: 0 <= k < |es| && es[k].Begin? && v == Concat(es[k].stream)
  {
    var d' := Run(d, es);
    PublishedAreWhole(d, es);
    if d'.target.Some? && d'.published != d.published {
      var k := |d'.published| - 1;
      assert d.published == d'.published[..|d.published|];
      assert k >= |d.published|;
      assert WholeStream(d, es, d'.published[k]);
    }
  }

  /** An open file does not change under its reader. */
  lemma {:induction false} ReadersArePinned(d: Disk, es: seq<Event>, h: nat)
    requires Inv(d) && CanRun(d, es) && h in d.readers
    requires forall k :: 0 <= k < |es| ==> es[k] != OpenReader(h) && es[k] != CloseReader(h)
    ensures var d' := Run(d, es);
      h in d'.readers && d'.readers[h] == d.readers[h] && d'.data[d'.readers[h]] == d.data[d.readers[h]]
    decreases |es|
  {
    if es != [] {
      StepKeepsInv(d, es[0]);
      assert forall k :: 0 <= k < |es[1..]| ==> es[1..][k] == es[k + 1];
      ReadersArePinned(Step(d, es[0]), es[1..], h);
    }
  }

  /** What one `read` at an offset returns: up to `n` bytes from there. */
  function ReadAt(content: bytes, offset: nat, n: nat): bytes {
    if offset >= |content| then []
    else if offset + n > |content| then content[offset..]
    else content[offset..offset + n]
  }

  /** A VFS read opens the target, seeks and reads; whatever the downloader does in
      between, the bytes are a slice of the version that was there at the open. */
  lemma ReadIsSliceOfOneVersion(d: Disk, h: nat, es: seq<Event>, offset: nat, n: nat)
    requires Inv(d) && d.target.Some? && CanRun(Step(d, OpenReader(h)), es)
    requires forall k :: 0 <= k < |es| ==> es[k] != OpenReader(h) && es[k] != CloseReader(h)
    ensures var d' := Run(Step(d, OpenReader(h)), es);
      && h in d'.readers
      && d.data[d.target.value] in d.published
      && var reply, version := ReadAt(d'.data[d'.readers[h]], offset, n), d.data[d.target.value];
         && |reply| == (if offset >= |version| then 0 else Min(n, |version| - offset))
         && forall k :: 0 <= k < |reply| ==> reply[k] == version[offset + k]
  {
    StepKeepsInv(d, OpenReader(h));
    ReadersArePinned(Step(d, OpenReader(h)), es, h);
  }

  /* ---- The downloader ---- */

  /** What one download meets.  `failAt`: block index at which the stream breaks, or at
      which writing breaks after some bytes. */
  datatype Env = Env(
    openOk: bool, createOk: bool, stream: seq<bytes>, failAt: Option<nat>, shortWrite: Option<nat>,
    flushOk: bool, renameOk: bool, removeOk: bool)

  /** Append one step to a run. */
  lemma {:induction false} RunSnoc(d: Disk, es: seq<Event>, e: Event)
    requires Inv(d) && CanRun(d, es) && CanStep(Run(d, es), e)
    ensures CanRun(d, es + [e]) && Run(d, es + [e]) == Step(Run(d, es), e)
    decreases |es|
  {
    if es == [] {
      assert es + [e] == [e];
      StepKeepsInv(d, e);
      assert [e][1..] == [];
    } else {
      StepKeepsInv(d, es[0]);
      assert (es + [e])[1..] == es[1..] + [e];
      RunSnoc(Step(d, es[0]), es[1..], e);
    }
  }

  /** The steps of one downloader: no reader events, and only its own stream. */
  predicate OwnSteps(es: seq<Event>, stream: seq<bytes>) {
    forall k :: 0 <= k < |es| ==> !es[k].OpenReader? && !es[k].CloseReader? && (es[k].Begin? ==> es[k].stream == stream)
  }

  /** `do_download`: the temporary file, then block after block. */
  method StreamToTemp(d0: Disk, env: Env) returns (ok: bool, d: Disk, ghost es: seq<Event>)
    requires Inv(d0) && d0.phase.Idle?
    ensures CanRun(d0, es) && d == Run(d0, es) && OwnSteps(es, env.stream) && SameTarget(d0, d)
    ensures ok ==> d.phase == Writing(env.stream, |env.stream|)
    ensures ok <==> env.flushOk && (env.failAt.None? || env.failAt.value >= |env.stream|)
  {
    d, es := Take(d0, d0, [], Begin(env.stream));
    var k := 0;
    while k < |env.stream|
      invariant 0 <= k <= |env.stream| && d.phase == Writing(env.stream, k)
      invariant env.failAt.None? || env.failAt.value >= k
      invariant CanRun(d0, es) && d == Run(d0, es) && OwnSteps(es, env.stream) && SameTarget(d0, d)
    {
      if env.failAt == Some(k) {
        if env.shortWrite.Some? && env.shortWrite.value <= |env.stream[k]| {
          d, es := Take(d0, d, es, ShortWrite(env.shortWrite.value));
        }
        return false, d, es;
      }
      d, es := Take(d0, d, es, Write);
      k := k + 1;
    }
    ok := env.flushOk;
  }

  /** `download_file` from the temporary file on: a run of downloader steps whose
      success puts the whole stream at the target. */
  method Download(d0: Disk, env: Env) returns (ok: bool, d: Disk, ghost es: seq<Event>)
    requires Inv(d0) && d0.phase.Idle?
    ensures CanRun(d0, es) && d == Run(d0, es) && d.phase.Idle?
    ensures OwnSteps(es, env.stream)
    ensures ok <==>
      env.openOk && env.createOk && env.flushOk && env.renameOk && (env.failAt.None? || env.failAt.value >= |env.stream|)
    ensures ok ==> d.target.Some? && d.data[d.target.value] == Concat(env.stream) && d.temp.None?
    ensures !ok ==> SameTarget(d0, d)
    ensures !ok && env.removeOk ==> d.temp.None?
  {
    ok, d, es := false, d0, [];
    if env.openOk && env.createOk {
      ok, d, es := StreamToTemp(d0, env);
    }
    ok := ok && env.renameOk;
    assert ok ==> d.phase.stream[..d.phase.done] == d.phase.stream;
    d, es := Take(d0, d, es, if ok then Publish else Cleanup(env.removeOk));
  }

  /** The target, what it holds and what was published are as before. */
  predicate SameTarget(d0: Disk, d: Disk) {
    && d.target == d0.target && d.published == d0.published
    && (d.target.Some? ==>
          d.target.value in d.data && d.target.value in d0.data && d.data[d.target.value] == d0.data[d.target.value])
  }

  lemma OnlyPublishChangesTarget(d0: Disk, d: Disk, e: Event)
    requires Inv(d) && CanStep(d, e) && !e.Publish? && SameTarget(d0, d)
    ensures SameTarget(d0, Step(d, e))
  {
  }

  method Take(d0: Disk, d: Disk, ghost es: seq<Event>, e: Event) returns (d': Disk, ghost es': seq<Event>)
    requires Inv(d0) && CanRun(d0, es) && d == Run(d0, es) && CanStep(d, e)
    ensures es' == es + [e] && CanRun(d0, es') && d' == Run(d0, es') && Inv(d') && d' == Step(d, e)
    ensures !e.Publish? && SameTarget(d0, d) ==> SameTarget(d0, d')
  {
    if !e.Publish? && SameTarget(d0, d) {
      OnlyPublishChangesTarget(d0, d, e);
    }
    RunSnoc(d0, es, e);
    StepKeepsInv(d, e);
    d', es' := Step(d, e), es + [e];
  }

  /* ---- Waiting for a download ---- */

  predicate IsLocal(s: Option<VfsTree.SyncState>) {
    s == Some(VfsTree.Cached) || s == Some(VfsTree.Synced) || s == Some(VfsTree.Offline)
  }

  predicate Decided(s: Option<VfsTree.SyncState>) {
    IsLocal(s) || s == Some(VfsTree.Error)
  }

  /** Poll the row until it is local, in error, or the time is up.  `polls` are the
      states seen in turn, `late` the first poll after which the timeout has passed. */
  method WaitForDownload(polls: nat -> Option<VfsTree.SyncState>, late: nat) returns (available: bool)
    ensures available <==>
      exists k: nat ::
        && k <= late && polls(k) in {Some(VfsTree.Cached), Some(VfsTree.Synced), Some(VfsTree.Offline)}
        && forall j: nat :: j < k ==>
             polls(j) !in {Some(VfsTree.Cached), Some(VfsTree.Synced), Some(VfsTree.Offline), Some(VfsTree.Error)}
  {
    var k: nat := 0;
    while true
      invariant k <= late && forall j: nat :: j < k ==> !Decided(polls(j))
      decreases late - k
    {
      var state := polls(k);
      if IsLocal(state) {
        return true;
      }
      if state == Some(VfsTree.Error) || k == late {
        return false;
      }
      k := k + 1;
    }
  }
}
