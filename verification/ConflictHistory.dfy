/** Many resolutions on one disk: which conflict copies are still there at the end. */
module ConflictHistory {
  import opened Prelude
  import opened ConflictCopy
  import opened ConflictResolution

  /* ---- One path over many steps ---- */

  /** A step writes the path, or leaves what is there. */
  predicate Touches(before: Disk, w: Option<bytes>, after: Disk, path: string) {
    if w.Some? then Holds(after, path, w.value)
    else path in before ==> Holds(after, path, before[path])
  }

  predicate Holds(d: Disk, path: string, content: bytes) {
    path in d && d[path] == content
  }

  predicate TouchedBy(disks: seq<Disk>, ws: seq<Option<bytes>>, path: string) {
    |disks| == |ws| + 1 && forall k :: 0 <= k < |ws| ==> Touches(disks[k], ws[k], disks[k + 1], path)
  }

  /** The last step that writes. */
  function LastWrite(ws: seq<Option<bytes>>): (j: nat)
    requires ws != [] && ws[0].Some?
    ensures j < |ws| && ws[j].Some? && forall i :: j < i < |ws| ==> ws[i].None?
  {
    var n := |ws| - 1;
    if ws[n].Some? then n else LastWrite(ws[..n])
  }

  lemma {:induction false} LastWriteWins(disks: seq<Disk>, ws: seq<Option<bytes>>, path: string)
    requires TouchedBy(disks, ws, path) && ws != [] && ws[0].Some?
    ensures Holds(disks[|ws|], path, ws[LastWrite(ws)].value)
    decreases |ws|
  {
    var n := |ws| - 1;
    assert Touches(disks[n], ws[n], disks[n + 1], path);
    if ws[n].None? {
      assert TouchedBy(disks[..n + 1], ws[..n], path) by {
        assert forall i :: 0 <= i < n ==> Touches(disks[i], ws[i], disks[i + 1], path);
      }
      LastWriteWins(disks[..n + 1], ws[..n], path);
    }
  }

  /* ---- Conflict copies ---- */

  lemma SplitPath(a: string, x: string, b: string, y: string)
    requires '/' !in x && '/' !in y && a + "/" + x == b + "/" + y
    ensures a == b && x == y
  {
    var s := a + "/" + x;
    assert s[|a|] == '/' && s[|b|] == '/';
    assert forall k :: |a| < k < |s| ==> s[k] == x[k - |a| - 1];
    assert forall k :: |b| < k < |s| ==> s[k] == (b + "/" + y)[k] == y[k - |b| - 1];
    assert |a| == |b|;
    assert a == s[..|a|] && b == s[..|b|] && x == s[|a| + 1..] && y == s[|b| + 1..];
  }

  lemma CopyNameHasNoSlash(name: string, timestamp: string)
    requires IsFileName(name) && '/' !in timestamp
    ensures '/' !in ConflictCopyName(Some(name), timestamp)
  {
    var (stem, ext) := SplitName(name);
    assert forall c :: c in stem || c in ext ==> c in stem + ext;
    assert '/' !in Suffix(timestamp);
  }

  /** Two resolutions have the same copy only if they are of the same file and timestamp text. */
  lemma SameCopyPath(p: Paths, q: Paths)
    requires IsFileName(p.name) && IsFileName(q.name) && '/' !in p.timestamp && '/' !in q.timestamp
    requires SameFormat(p.timestamp, q.timestamp) && p.Conflict() == q.Conflict()
    ensures p == q
  {
    var x, y := ConflictCopyName(Some(p.name), p.timestamp), ConflictCopyName(Some(q.name), q.timestamp);
    CopyNameHasNoSlash(p.name, p.timestamp);
    CopyNameHasNoSlash(q.name, q.timestamp);
    SplitPath(p.dir, x, q.dir, y);
    CopiesAreInjective(p.name, p.timestamp, q.name, q.timestamp);
  }

  /** An edit saved at a path, and the resolution that found it there. */
  datatype Edit = Edit(p: Paths, content: bytes)

  /** The user saves the edit, and the resolution gets at least as far as moving it away. */
  predicate Resolves(before: Disk, e: Edit, after: Disk)
    requires IsFileName(e.p.name)
  {
    CopyHolds(before[e.p.Local() := e.content], after, e.p)
  }

  /** Disks before, between and after the resolutions. */
  predicate IsHistory(disks: seq<Disk>, edits: seq<Edit>) {
    && |disks| == |edits| + 1
    && forall k :: 0 <= k < |edits| ==> IsFileName(edits[k].p.name) && Resolves(disks[k], edits[k], disks[k + 1])
  }

  /** The copy of one resolution is neither the file nor the temporary file of another, and
      their timestamps have one format without slash. */
  predicate Apart(e: Edit, other: Edit)
    requires IsFileName(e.p.name)
  {
    && e.p.Conflict() != other.p.Local() && e.p.Conflict() != other.p.Temp()
    && SameFormat(e.p.timestamp, other.p.timestamp) && '/' !in e.p.timestamp && '/' !in other.p.timestamp
  }

  /** No later resolution works on the copy of the `k`-th one. */
  predicate LeftAlone(edits: seq<Edit>, k: nat)
    requires k < |edits| && IsFileName(edits[k].p.name)
  {
    forall j :: k <= j < |edits| ==> Apart(edits[k], edits[j])
  }

  function CopyPath(e: Edit): string
    requires IsFileName(e.p.name)
  {
    e.p.Conflict()
  }

  /** What the resolution of `e` writes to the copy of `kept`. */
  function WrittenBy(e: Edit, kept: Edit): Option<bytes> {
    if e.p == kept.p then Some(e.content) else None
  }

  lemma ResolutionTouches(before: Disk, e: Edit, after: Disk, kept: Edit)
    requires IsFileName(e.p.name) && IsFileName(kept.p.name) && Resolves(before, e, after) && Apart(kept, e)
    ensures Touches(before, WrittenBy(e, kept), after, CopyPath(kept))
  {
    if e.p != kept.p && CopyPath(kept) in before {
      if kept.p.Conflict() == e.p.Conflict() {
        SameCopyPath(kept.p, e.p);
      }
      OthersStay(before, e, after, CopyPath(kept));
    }
  }

  /** What a resolution does to a path that is none of its three. */
  lemma OthersStay(before: Disk, e: Edit, after: Disk, path: string)
    requires IsFileName(e.p.name) && Resolves(before, e, after) && path in before
    requires path != e.p.Local() && path != e.p.Conflict() && path != e.p.Temp()
    ensures Holds(after, path, before[path])
  {
    var saved := before[e.p.Local() := e.content];
    var three := {e.p.Local(), e.p.Conflict(), e.p.Temp()};
    assert path in saved - three && (saved - three)[path] == saved[path];
    assert path in after - three && (after - three)[path] == after[path];
  }

  /** What the resolutions from the `k`-th on write to its copy. */
  function WritesToCopy(edits: seq<Edit>, k: nat): (ws: seq<Option<bytes>>)
    requires k < |edits|
    ensures |ws| == |edits| - k && forall j :: 0 <= j < |ws| ==> ws[j] == WrittenBy(edits[k + j], edits[k])
  {
    seq(|edits| - k, j requires 0 <= j < |edits| - k => WrittenBy(edits[k + j], edits[k]))
  }

  lemma HistoryTouches(disks: seq<Disk>, edits: seq<Edit>, k: nat)
    requires IsHistory(disks, edits) && k < |edits| && LeftAlone(edits, k)
    ensures TouchedBy(disks[k..], WritesToCopy(edits, k), CopyPath(edits[k]))
  {
    var ws := WritesToCopy(edits, k);
    forall j | 0 <= j < |ws| ensures Touches(disks[k..][j], ws[j], disks[k..][j + 1], CopyPath(edits[k])) {
      ResolutionTouches(disks[k + j], edits[k + j], disks[k + j + 1], edits[k]);
    }
  }

  lemma LastOfItsKind(disks: seq<Disk>, edits: seq<Edit>, k: nat, path: string) returns (last: nat)
    requires |disks| == |edits| + 1 && k < |edits| && TouchedBy(disks[k..], WritesToCopy(edits, k), path)
    ensures k <= last < |edits| && edits[last].p == edits[k].p
    ensures forall j :: last < j < |edits| ==> edits[j].p != edits[k].p
    ensures Holds(disks[|edits|], path, edits[last].content)
  {
    var ws := WritesToCopy(edits, k);
    LastWriteWins(disks[k..], ws, path);
    last := k + LastWrite(ws);
    forall j | last < j < |edits| ensures edits[j].p != edits[k].p {
      assert ws[j - k].None?;
    }
  }

  /** After any number of resolutions, a copy holds the edit of the last resolution of the same
      file with the same timestamp text. */
  lemma {:induction false} LastCopyWins(disks: seq<Disk>, edits: seq<Edit>, k: nat) returns (last: nat)
    requires IsHistory(disks, edits) && k < |edits| && LeftAlone(edits, k)
    ensures k <= last < |edits| && edits[last].p == edits[k].p
    ensures forall j :: last < j < |edits| ==> edits[j].p != edits[k].p
    ensures Holds(disks[|edits|], CopyPath(edits[k]), edits[last].content)
  {
    HistoryTouches(disks, edits, k);
    last := LastOfItsKind(disks, edits, k, CopyPath(edits[k]));
  }

  /** So an edit that no later one repeats is still in its copy if and only if no later
      resolution of the same file had the same timestamp text. */
  lemma {:induction false} EditSurvivesIff(disks: seq<Disk>, edits: seq<Edit>, k: nat)
    requires IsHistory(disks, edits) && k < |edits| && LeftAlone(edits, k)
    requires forall j :: k < j < |edits| ==> edits[j].content != edits[k].content
    ensures Holds(disks[|edits|], CopyPath(edits[k]), edits[k].content)
            <==> forall j :: k < j < |edits| ==> edits[j].p != edits[k].p
  {
    var last := LastCopyWins(disks, edits, k);
  }

  /** One file, edited and in conflict twice within one timestamp text. */
  lemma SameTimestampLosesEdit(p: Paths, first: bytes, second: bytes) returns (disks: seq<Disk>)
    requires IsFileName(p.name) && '/' !in p.timestamp && first != second
    ensures var edits := [Edit(p, first), Edit(p, second)];
      IsHistory(disks, edits) && LeftAlone(edits, 0) && disks[2] == map[p.Conflict() := second]
  {
    PathsDiffer(p);
    var d1: Disk, d2: Disk := map[p.Conflict() := first], map[p.Conflict() := second];
    disks := [map[], d1, d2];
    var three := {p.Local(), p.Conflict(), p.Temp()};
    assert disks[0][p.Local() := first] - three == d1 - three;
    assert d1[p.Local() := second] - three == d2 - three;
  }
}
