/** The `drive_files` table seen as a directory tree.

    Rows hold a parent id, not a path: the path of an entry is read off the chain
    of rows that the JOIN of `lookup_by_parent_and_name` follows up to the root. */
module VfsTree {
  import opened Prelude

  type Inode = nat

  /** SQLite hands out rowids from 1, so the root sentinel never names a row. */
  const ROOT_INODE: Inode := 0

  datatype Kind = Folder | Workspace | Regular

  datatype SyncState = CloudOnly | Cached | Synced | Offline | Modified | Error

  datatype Row = Row(
    id: string, account: string, name: string, kind: Kind, parent: Option<string>,
    trashed: bool, localPath: Option<string>, syncState: SyncState)

  /** `drive_files`, keyed by rowid. */
  type Table = map<Inode, Row>

  predicate Live(t: Table, i: Inode) {
    i in t && !t[i].trashed
  }

  /** `c` is listed under `p`: a NULL parent id for the root, otherwise a JOIN on
      the parent id and on equal accounts.  The JOIN does not ask `p` to be live. */
  predicate Under(t: Table, p: Inode, c: Inode) {
    && c in t
    && if p == ROOT_INODE then t[c].parent.None?
       else p in t && t[c].parent == Some(t[p].id) && t[c].account == t[p].account
  }

  /** What a lookup of `name` under `p` may return. */
  predicate Child(t: Table, p: Inode, name: string, c: Inode) {
    Live(t, c) && Under(t, p, c) && t[c].name == name
  }

  predicate IsDirectory(t: Table, p: Inode) {
    p == ROOT_INODE || (Live(t, p) && t[p].kind.Folder?)
  }

  /** A proper tree edge: a live entry under the root or under a live folder. */
  predicate Edge(t: Table, p: Inode, c: Inode) {
    Live(t, c) && Under(t, p, c) && IsDirectory(t, p)
  }

  /* ---- Chains of edges from the root ---- */

  datatype Chain = Root | Down(up: Chain, ino: Inode)

  function End(ch: Chain): Inode {
    if ch.Root? then ROOT_INODE else ch.ino
  }

  predicate IsChain(t: Table, ch: Chain) {
    ch.Root? || (IsChain(t, ch.up) && Edge(t, End(ch.up), ch.ino))
  }

  predicate Through(ch: Chain, m: Inode) {
    ch.Down? && (ch.ino == m || Through(ch.up, m))
  }

  function Names(t: Table, ch: Chain): seq<string>
    requires IsChain(t, ch)
  {
    if ch.Root? then [] else Names(t, ch.up) + [t[ch.ino].name]
  }

  ghost predicate Reaches(t: Table, ch: Chain, c: Inode) {
    IsChain(t, ch) && End(ch) == c
  }

  ghost predicate HasChain(t: Table, c: Inode) {
    exists ch :: Reaches(t, ch, c)
  }

  /* ---- Soundness ---- */

  /** PRIMARY KEY (id, account_id). */
  ghost predicate KeysUnique(t: Table) {
    forall i, j :: i in t && j in t && t[i].id == t[j].id && t[i].account == t[j].account ==> i == j
  }

  ghost predicate SiblingsDistinct(t: Table) {
    forall p, n, c, d :: Child(t, p, n, c) && Child(t, p, n, d) ==> c == d
  }

  /** Every live entry hangs from the root through live folders of its own account. */
  ghost predicate Rooted(t: Table) {
    forall c :: Live(t, c) ==> HasChain(t, c)
  }

  ghost predicate Sound(t: Table) {
    && ROOT_INODE !in t
    && KeysUnique(t)
    && SiblingsDistinct(t)
    && Rooted(t)
  }

  /** The chain of a live entry, or the empty chain of the root. */
  ghost function ChainOf(t: Table, c: Inode): (ch: Chain)
    requires HasChain(t, c)
    ensures Reaches(t, ch, c)
  {
    var ch :| Reaches(t, ch, c);
    ch
  }

  /** The names from the root down to `c`. */
  ghost function PathOf(t: Table, c: Inode): seq<string>
    requires HasChain(t, c)
  {
    Names(t, ChainOf(t, c))
  }

  lemma RootHasChain(t: Table)
    ensures HasChain(t, ROOT_INODE)
  {
    assert Reaches(t, Root, ROOT_INODE);
  }

  lemma DirectoryHasChain(t: Table, p: Inode)
    requires Sound(t) && IsDirectory(t, p)
    ensures HasChain(t, p)
  {
    RootHasChain(t);
  }

  /** Parents are unique, hence so are chains: a path identifies one way up. */
  lemma {:induction false} ChainUnique(t: Table, a: Chain, b: Chain)
    requires ROOT_INODE !in t && KeysUnique(t)
    requires IsChain(t, a) && IsChain(t, b) && End(a) == End(b)
    ensures a == b
  {
    if a.Down? && b.Down? {
      assert End(a.up) == End(b.up);
      ChainUnique(t, a.up, b.up);
    }
  }

  lemma ParentOfLive(t: Table, c: Inode) returns (p: Inode)
    requires Sound(t) && Live(t, c)
    ensures Edge(t, p, c) && HasChain(t, p)
    ensures ChainOf(t, c) == Down(ChainOf(t, p), c)
  {
    var ch := ChainOf(t, c);
    p := End(ch.up);
    assert Reaches(t, ch.up, p);
    ChainUnique(t, ch.up, ChainOf(t, p));
  }

  /** The JOIN reaches an entry through exactly one parent, a directory. */
  lemma UnderMeansEdge(t: Table, p: Inode, c: Inode)
    requires Sound(t) && Live(t, c) && Under(t, p, c)
    ensures Edge(t, p, c)
  {
    var q := ParentOfLive(t, c);
  }

  lemma PathStep(t: Table, p: Inode, c: Inode)
    requires Sound(t) && Edge(t, p, c) && HasChain(t, p)
    ensures HasChain(t, c) && PathOf(t, c) == PathOf(t, p) + [t[c].name]
  {
    var ch := Down(ChainOf(t, p), c);
    assert Reaches(t, ch, c);
    ChainUnique(t, ch, ChainOf(t, c));
  }

  /** Two entries never share a path. */
  lemma {:induction false} PathInjective(t: Table, a: Chain, b: Chain)
    requires Sound(t) && IsChain(t, a) && IsChain(t, b)
    requires Names(t, a) == Names(t, b)
    ensures a == b
  {
    if a.Down? && b.Down? {
      var na, nb := Names(t, a.up), Names(t, b.up);
      assert na == Names(t, a)[..|na|] && nb == Names(t, b)[..|nb|];
      assert |na| == |nb|;
      PathInjective(t, a.up, b.up);
      assert Names(t, a)[|na|] == t[a.ino].name && Names(t, b)[|nb|] == t[b.ino].name;
      assert Child(t, End(a.up), t[a.ino].name, a.ino);
      assert Child(t, End(b.up), t[a.ino].name, b.ino);
    }
  }

  /* ---- No cycles ---- */

  /** Each entry of `via` is listed under the next one: a climb towards the root. */
  ghost predicate Climbs(t: Table, via: seq<Inode>) {
    && |via| >= 1
    && forall k :: 0 <= k < |via| - 1 ==> Live(t, via[k]) && Under(t, via[k + 1], via[k])
  }

  function Depth(ch: Chain): nat {
    if ch.Root? then 0 else 1 + Depth(ch.up)
  }

  lemma {:induction false} ClimbingLosesDepth(t: Table, via: seq<Inode>)
    requires Sound(t) && Climbs(t, via) && Live(t, via[|via| - 1])
    ensures Live(t, via[0])
    ensures Depth(ChainOf(t, via[0])) == Depth(ChainOf(t, via[|via| - 1])) + |via| - 1
    decreases |via|
  {
    if |via| > 1 {
      var rest := via[1..];
      assert forall k :: 0 <= k < |rest| ==> rest[k] == via[k + 1];
      assert Climbs(t, rest);
      ClimbingLosesDepth(t, rest);
      UnderMeansEdge(t, via[1], via[0]);
      var p := ParentOfLive(t, via[0]);
      assert p == via[1];
    }
  }

  /** No live entry is its own ancestor. */
  lemma NoCycles(t: Table, via: seq<Inode>)
    requires Sound(t) && Climbs(t, via) && |via| > 1 && Live(t, via[0])
    ensures via[0] != via[|via| - 1]
  {
    if via[0] == via[|via| - 1] {
      ClimbingLosesDepth(t, via);
    }
  }

  /** Every live entry's parent is the root or a live folder of the same account. */
  lemma ParentsAreFolders(t: Table, c: Inode)
    requires Sound(t) && Live(t, c)
    ensures
      if t[c].parent.None? then Edge(t, ROOT_INODE, c)
      else exists p :: Live(t, p) && t[p].kind.Folder? && t[p].id == t[c].parent.value && t[p].account == t[c].account
  {
    var p := ParentOfLive(t, c);
  }
}
