/** What the row edits of the VFS do to the tree: inserting a row, trashing a row
    and rewriting one row's name and parent id. */
module VfsEdits {
  import opened Prelude
  import opened VfsTree

  /* ---- Rename: one UPDATE of name and parent_id ---- */

  function Renamed(t: Table, m: Inode, newName: string, newParent: Option<string>): Table
    requires m in t
  {
    t[m := t[m].(name := newName, parent := newParent, syncState := Modified)]
  }

  /** The row that `newParent` denotes for an entry of `account`. */
  predicate Denotes(t: Table, newParent: Option<string>, account: string, p: Inode) {
    if newParent.None? then p == ROOT_INODE
    else p != ROOT_INODE && p in t && t[p].id == newParent.value && t[p].account == account
  }

  /** `p` lies inside the subtree of `m`. */
  ghost predicate Inside(t: Table, m: Inode, p: Inode)
    requires HasChain(t, p)
  {
    Through(ChainOf(t, p), m)
  }

  ghost predicate Outside(t: Table, m: Inode, p: Inode) {
    HasChain(t, p) && !Inside(t, m, p)
  }

  /** A directory of the entry's own account, outside the entry's subtree, in which
      no other live entry has the new name. */
  ghost predicate GoodTarget(t: Table, m: Inode, newName: string, newParent: Option<string>, p: Inode)
    requires m in t
  {
    && Denotes(t, newParent, t[m].account, p)
    && IsDirectory(t, p)
    && Outside(t, m, p)
    && (forall c :: Child(t, p, newName, c) ==> c == m)
  }

  /** Replace the part of a chain above `m` by `up`. */
  function Graft(ch: Chain, m: Inode, up: Chain): Chain {
    match ch
    case Root => Root
    case Down(above, i) => if i == m then Down(up, m) else Down(Graft(above, m, up), i)
  }

  lemma EdgeSurvivesRename(t: Table, m: Inode, newName: string, newParent: Option<string>, p: Inode, c: Inode)
    requires m in t && c != m
    ensures Edge(Renamed(t, m, newName, newParent), p, c) <==> Edge(t, p, c)
  {
  }

  lemma {:induction false} ChainSurvivesRename(t: Table, m: Inode, newName: string, newParent: Option<string>, ch: Chain)
    requires m in t && !Through(ch, m)
    ensures IsChain(Renamed(t, m, newName, newParent), ch) <==> IsChain(t, ch)
    ensures IsChain(t, ch) ==> Names(Renamed(t, m, newName, newParent), ch) == Names(t, ch)
  {
    if ch.Down? {
      ChainSurvivesRename(t, m, newName, newParent, ch.up);
      EdgeSurvivesRename(t, m, newName, newParent, End(ch.up), ch.ino);
    }
  }

  /** Grafting turns every chain through `m` into a chain of the new table. */
  lemma {:induction false} GraftIsChain(t: Table, m: Inode, newName: string, newParent: Option<string>, ch: Chain, up: Chain)
    requires m in t && IsChain(t, ch)
    requires IsChain(Renamed(t, m, newName, newParent), up)
    requires Edge(Renamed(t, m, newName, newParent), End(up), m)
    ensures IsChain(Renamed(t, m, newName, newParent), Graft(ch, m, up))
    ensures End(Graft(ch, m, up)) == End(ch)
  {
    if ch.Down? && ch.ino != m {
      GraftIsChain(t, m, newName, newParent, ch.up, up);
      EdgeSurvivesRename(t, m, newName, newParent, End(ch.up), ch.ino);
    }
  }

  /** The names below `m` on a chain through `m`. */
  function NamesBelow(t: Table, ch: Chain, m: Inode): seq<string>
    requires IsChain(t, ch) && Through(ch, m)
  {
    if ch.ino == m then [] else NamesBelow(t, ch.up, m) + [t[ch.ino].name]
  }

  /** The part of a chain that ends at `m`. */
  function UpTo(ch: Chain, m: Inode): Chain
    requires Through(ch, m)
  {
    if ch.ino == m then ch else UpTo(ch.up, m)
  }

  lemma {:induction false} SplitAt(t: Table, ch: Chain, m: Inode)
    requires IsChain(t, ch) && Through(ch, m)
    ensures IsChain(t, UpTo(ch, m)) && End(UpTo(ch, m)) == m
    ensures Names(t, ch) == Names(t, UpTo(ch, m)) + NamesBelow(t, ch, m)
  {
    if ch.ino != m {
      SplitAt(t, ch.up, m);
    }
  }

  lemma {:induction false} GraftNames(t: Table, m: Inode, newName: string, newParent: Option<string>, ch: Chain, up: Chain)
    requires m in t && IsChain(t, ch) && Through(ch, m)
    requires IsChain(Renamed(t, m, newName, newParent), up)
    requires Edge(Renamed(t, m, newName, newParent), End(up), m)
    requires IsChain(Renamed(t, m, newName, newParent), Graft(ch, m, up))
    ensures Names(Renamed(t, m, newName, newParent), Graft(ch, m, up))
         == Names(Renamed(t, m, newName, newParent), up) + [newName] + NamesBelow(t, ch, m)
  {
    if ch.ino != m {
      GraftNames(t, m, newName, newParent, ch.up, up);
    }
  }

  /** A good target directory stays reachable, unchanged, and takes `m` as a child. */
  lemma TargetAfterRename(t: Table, m: Inode, newName: string, newParent: Option<string>, p: Inode)
    requires Sound(t) && Live(t, m) && GoodTarget(t, m, newName, newParent, p)
    ensures HasChain(t, p)
    ensures IsChain(Renamed(t, m, newName, newParent), ChainOf(t, p))
    ensures Names(Renamed(t, m, newName, newParent), ChainOf(t, p)) == PathOf(t, p)
    ensures Edge(Renamed(t, m, newName, newParent), p, m)
  {
    DirectoryHasChain(t, p);
    ChainSurvivesRename(t, m, newName, newParent, ChainOf(t, p));
  }

  lemma RenameKeepsRooted(t: Table, m: Inode, newName: string, newParent: Option<string>, p: Inode)
    requires Sound(t) && Live(t, m) && GoodTarget(t, m, newName, newParent, p)
    ensures Rooted(Renamed(t, m, newName, newParent))
  {
    var t' := Renamed(t, m, newName, newParent);
    TargetAfterRename(t, m, newName, newParent, p);
    forall c | Live(t', c) ensures HasChain(t', c) {
      assert Live(t, c);
      var ch := Graft(ChainOf(t, c), m, ChainOf(t, p));
      GraftIsChain(t, m, newName, newParent, ChainOf(t, c), ChainOf(t, p));
      assert Reaches(t', ch, c);
    }
  }

  lemma RenameKeepsSiblings(t: Table, m: Inode, newName: string, newParent: Option<string>, p: Inode)
    requires Sound(t) && Live(t, m) && GoodTarget(t, m, newName, newParent, p)
    ensures SiblingsDistinct(Renamed(t, m, newName, newParent))
  {
    var t' := Renamed(t, m, newName, newParent);
    TargetAfterRename(t, m, newName, newParent, p);
    forall q, n, c, d | Child(t', q, n, c) && Child(t', q, n, d) ensures c == d {
      assert c != m ==> Child(t, q, n, c);
      assert d != m ==> Child(t, q, n, d);
      if c == m || d == m {
        assert q == p;
      }
    }
  }

  /** The rename keeps the tree sound exactly when its target is good.  The `if`
      side is what the kernel has to supply; without it the entry becomes
      unreachable, cyclic or ambiguous. */
  lemma RenameSoundIff(t: Table, m: Inode, newName: string, newParent: Option<string>)
    requires Sound(t) && Live(t, m)
    ensures Sound(Renamed(t, m, newName, newParent)) <==> exists p :: GoodTarget(t, m, newName, newParent, p)
  {
    var t' := Renamed(t, m, newName, newParent);
    if p :| GoodTarget(t, m, newName, newParent, p) {
      RenameKeepsRooted(t, m, newName, newParent, p);
      RenameKeepsSiblings(t, m, newName, newParent, p);
    }
    if Sound(t') {
      var p := ParentOfLive(t', m);
      var up := ChainOf(t', p);
      NotOwnAncestor(t', m, ChainOf(t', m));
      ChainSurvivesRename(t, m, newName, newParent, up);
      assert Reaches(t, up, p);
      ChainUnique(t, up, ChainOf(t, p));
      forall c | Child(t, p, newName, c) ensures c == m {
        if c != m {
          assert Child(t', p, newName, c) && Child(t', p, newName, m);
        }
      }
      assert GoodTarget(t, m, newName, newParent, p);
    }
  }

  lemma NotOwnAncestor(t: Table, m: Inode, ch: Chain)
    requires Sound(t) && Reaches(t, ch, m) && ch.Down?
    ensures !Through(ch.up, m)
  {
    if Through(ch.up, m) {
      SplitAt(t, ch.up, m);
      ChainUnique(t, ch, UpTo(ch.up, m));
      UpToIsNoDeeper(ch.up, m);
    }
  }

  lemma {:induction false} UpToIsNoDeeper(ch: Chain, m: Inode)
    requires Through(ch, m)
    ensures Depth(UpTo(ch, m)) <= Depth(ch)
  {
    if ch.ino != m {
      UpToIsNoDeeper(ch.up, m);
    }
  }

  /** Between two tables: an entry inside the subtree of `m` keeps its path below `m`,
      any other entry keeps its whole path. */
  ghost predicate FollowsOrStays(t: Table, t': Table, m: Inode, e: Inode) {
    && HasChain(t, m) && HasChain(t', m) && HasChain(t, e) && HasChain(t', e)
    && if Inside(t, m, e) then
         exists below :: PathOf(t, e) == PathOf(t, m) + below && PathOf(t', e) == PathOf(t', m) + below
       else PathOf(t', e) == PathOf(t, e)
  }

  /** A successful rename moves exactly one subtree: inside it the path prefix of `m`
      is replaced by its new path, and every other entry keeps its path. */
  lemma RenameMovesSubtree(t: Table, m: Inode, newName: string, newParent: Option<string>, p: Inode, e: Inode)
    requires Sound(t) && Live(t, m) && GoodTarget(t, m, newName, newParent, p) && Live(t, e)
    ensures var t' := Renamed(t, m, newName, newParent);
      && HasChain(t, p) && HasChain(t', m) && PathOf(t', m) == PathOf(t, p) + [newName]
      && Live(t', e) && FollowsOrStays(t, t', m, e)
  {
    var t' := Renamed(t, m, newName, newParent);
    RenameSoundIff(t, m, newName, newParent);
    TargetAfterRename(t, m, newName, newParent, p);
    var ch, up := ChainOf(t, e), ChainOf(t, p);
    PathStep'(t', Down(up, m));
    GraftIsChain(t, m, newName, newParent, ch, up);
    PathStep'(t', Graft(ch, m, up));
    if Through(ch, m) {
      SplitAt(t, ch, m);
      PathStep'(t, UpTo(ch, m));
      GraftNames(t, m, newName, newParent, ch, up);
      assert PathOf(t, e) == PathOf(t, m) + NamesBelow(t, ch, m);
      assert PathOf(t', e) == PathOf(t', m) + NamesBelow(t, ch, m);
    } else {
      ChainSurvivesRename(t, m, newName, newParent, ch);
      PathStep'(t', ch);
    }
  }

  /** The same for the whole table at once. */
  lemma RenameMovesOnlySubtree(t: Table, m: Inode, newName: string, newParent: Option<string>, p: Inode)
    requires Sound(t) && Live(t, m) && GoodTarget(t, m, newName, newParent, p)
    ensures var t' := Renamed(t, m, newName, newParent);
      && HasChain(t, p) && HasChain(t', m) && PathOf(t', m) == PathOf(t, p) + [newName]
      && (forall e :: Live(t, e) <==> Live(t', e))
      && (forall e :: Live(t, e) ==> FollowsOrStays(t, t', m, e))
  {
    var t' := Renamed(t, m, newName, newParent);
    RenameMovesSubtree(t, m, newName, newParent, p, m);
    forall e | Live(t, e) ensures FollowsOrStays(t, t', m, e) {
      RenameMovesSubtree(t, m, newName, newParent, p, e);
    }
  }

  /** What a lookup finds has the path of its parent and the name. */
  lemma ChildPath(t: Table, p: Inode, name: string, c: Inode)
    requires Sound(t) && Child(t, p, name, c)
    ensures HasChain(t, p) && HasChain(t, c) && PathOf(t, c) == PathOf(t, p) + [name]
  {
    UnderMeansEdge(t, p, c);
    DirectoryHasChain(t, p);
    PathStep(t, p, c);
  }

  /** Any chain gives the path of its end. */
  lemma PathStep'(t: Table, ch: Chain)
    requires Sound(t) && IsChain(t, ch)
    ensures HasChain(t, End(ch)) && PathOf(t, End(ch)) == Names(t, ch)
  {
    assert Reaches(t, ch, End(ch));
    ChainUnique(t, ch, ChainOf(t, End(ch)));
  }

  /* ---- Insert ---- */

  lemma {:induction false} ChainSurvivesInsert(t: Table, i: Inode, row: Row, ch: Chain)
    requires i !in t && i != ROOT_INODE && IsChain(t, ch)
    ensures IsChain(t[i := row], ch) && Names(t[i := row], ch) == Names(t, ch)
  {
    if ch.Down? {
      ChainSurvivesInsert(t, i, row, ch.up);
    }
  }

  /** A fresh key: what the PRIMARY KEY constraint checks on INSERT. */
  predicate KeyFree(t: Table, id: string, account: string) {
    forall j :: j in t ==> t[j].id != id || t[j].account != account
  }

  /** A row inserted under an entry that is no directory is unreachable. */
  lemma InsertNeedsDirectory(t: Table, i: Inode, row: Row, p: Inode)
    requires i !in t && i != ROOT_INODE && !row.trashed && KeyFree(t, row.id, row.account)
    requires Denotes(t, row.parent, row.account, p) && Sound(t[i := row])
    ensures IsDirectory(t, p)
  {
    var t' := t[i := row];
    assert Live(t', i);
    var up := ChainOf(t', i).up;
    var q := End(up);
    assert Edge(t', q, i);
    if row.parent.Some? {
      assert p in t' && t'[q].id == t'[p].id && t'[q].account == t'[p].account;
    }
    assert q == p && p != i;
  }

  /** Inserting a live row keeps the tree sound exactly when its parent is a directory in
      which the name is free.  `create` itself makes no such check. */
  lemma InsertSoundIff(t: Table, i: Inode, row: Row, p: Inode)
    requires Sound(t) && i !in t && i != ROOT_INODE && !row.trashed
    requires KeyFree(t, row.id, row.account)
    requires Denotes(t, row.parent, row.account, p)
    ensures Sound(t[i := row]) <==> IsDirectory(t, p) && forall c :: !Child(t, p, row.name, c)
  {
    var t' := t[i := row];
    assert Child(t', p, row.name, i);
    if !IsDirectory(t, p) {
      if Sound(t') {
        InsertNeedsDirectory(t, i, row, p);
      }
    } else if c :| Child(t, p, row.name, c) {
      assert Child(t', p, row.name, c);
    } else {
      InsertKeepsRooted(t, i, row, p);
      forall q, n, c, d | Child(t', q, n, c) && Child(t', q, n, d) ensures c == d {
        assert c != i ==> q != i by { if c != i { var _ := ParentOfLive(t, c); } }
        assert d != i ==> q != i by { if d != i { var _ := ParentOfLive(t, d); } }
        assert c != i ==> Child(t, q, n, c);
        assert d != i ==> Child(t, q, n, d);
        assert c == i || d == i ==> q == p;
      }
    }
  }

  lemma InsertKeepsRooted(t: Table, i: Inode, row: Row, p: Inode)
    requires Sound(t) && i !in t && i != ROOT_INODE && !row.trashed
    requires KeyFree(t, row.id, row.account)
    requires IsDirectory(t, p) && Denotes(t, row.parent, row.account, p)
    ensures Rooted(t[i := row])
  {
    var t' := t[i := row];
    DirectoryHasChain(t, p);
    ChainSurvivesInsert(t, i, row, ChainOf(t, p));
    assert Reaches(t', Down(ChainOf(t, p), i), i);
    forall c | Live(t', c) && c != i ensures HasChain(t', c) {
      assert Live(t, c);
      ChainSurvivesInsert(t, i, row, ChainOf(t, c));
      assert Reaches(t', ChainOf(t, c), c);
    }
  }

  /** An insert gives the new entry its path ... */
  lemma InsertedPath(t: Table, i: Inode, row: Row, p: Inode)
    requires Sound(t) && Sound(t[i := row]) && i !in t && i != ROOT_INODE && !row.trashed
    requires IsDirectory(t, p) && Denotes(t, row.parent, row.account, p)
    ensures HasChain(t, p) && HasChain(t[i := row], i) && PathOf(t[i := row], i) == PathOf(t, p) + [row.name]
  {
    DirectoryHasChain(t, p);
    ChainSurvivesInsert(t, i, row, ChainOf(t, p));
    PathStep'(t[i := row], Down(ChainOf(t, p), i));
  }

  /** ... and moves nobody else. */
  lemma InsertPaths(t: Table, i: Inode, row: Row, e: Inode)
    requires Sound(t) && Sound(t[i := row]) && i !in t && i != ROOT_INODE && Live(t, e)
    ensures HasChain(t[i := row], e) && PathOf(t[i := row], e) == PathOf(t, e)
  {
    ChainSurvivesInsert(t, i, row, ChainOf(t, e));
    PathStep'(t[i := row], ChainOf(t, e));
  }

  /* ---- Soft delete ---- */

  function Trashed(t: Table, m: Inode): Table
    requires m in t
  {
    t[m := t[m].(trashed := true)]
  }

  /** An empty listing: no live row joins to `m`. */
  ghost predicate Childless(t: Table, m: Inode) {
    forall c :: !(Live(t, c) && Under(t, m, c))
  }

  lemma {:induction false} ChainSurvivesTrash(t: Table, m: Inode, ch: Chain)
    requires m in t && m != ROOT_INODE && Childless(t, m) && IsChain(t, ch) && End(ch) != m
    ensures IsChain(Trashed(t, m), ch) && Names(Trashed(t, m), ch) == Names(t, ch)
  {
    if ch.Down? {
      ChainSurvivesTrash(t, m, ch.up);
    }
  }

  /** Trashing an entry keeps the tree sound exactly when its listing is empty. */
  lemma TrashSoundIff(t: Table, m: Inode)
    requires Sound(t) && Live(t, m)
    ensures Sound(Trashed(t, m)) <==> Childless(t, m)
  {
    var t' := Trashed(t, m);
    if Childless(t, m) {
      forall c | Live(t', c) ensures HasChain(t', c) {
        assert Live(t, c);
        ChainSurvivesTrash(t, m, ChainOf(t, c));
        assert Reaches(t', ChainOf(t, c), c);
      }
      forall q, n, c, d | Child(t', q, n, c) && Child(t', q, n, d) ensures c == d {
        assert Child(t, q, n, c) && Child(t, q, n, d);
      }
    } else {
      var c :| Live(t, c) && Under(t, m, c);
      if Sound(t') {
        NotOwnParent(t, m, c);
        UnderMeansEdge(t', m, c);
      }
    }
  }

  lemma NotOwnParent(t: Table, m: Inode, c: Inode)
    requires Sound(t) && Live(t, c) && Under(t, m, c)
    ensures c != m
  {
    if c == m {
      NoCycles(t, [c, c]);
    }
  }

  /** Trashing an empty entry moves nobody else. */
  lemma TrashPaths(t: Table, m: Inode, e: Inode)
    requires Sound(t) && Live(t, m) && Childless(t, m) && Live(t, e) && e != m
    ensures HasChain(Trashed(t, m), e) && PathOf(Trashed(t, m), e) == PathOf(t, e)
  {
    TrashSoundIff(t, m);
    ChainSurvivesTrash(t, m, ChainOf(t, e));
    PathStep'(Trashed(t, m), ChainOf(t, e));
  }

  /* ---- has_children ---- */

  /** `has_children` counts rows by parent id alone, whatever their account. */
  predicate HasChildren(t: Table, m: Inode) {
    if m == ROOT_INODE then exists c :: c in t && !t[c].trashed && t[c].parent.None?
    else m in t && exists c :: c in t && !t[c].trashed && t[c].parent == Some(t[m].id)
  }

  /** The count misses nothing the listing shows, and it is exact unless another
      account has live rows under the same folder id. */
  lemma HasChildrenVersusListing(t: Table, m: Inode)
    requires m in t && m != ROOT_INODE
    ensures !HasChildren(t, m) ==> Childless(t, m)
    ensures HasChildren(t, m) <==>
            !Childless(t, m) || exists c :: Live(t, c) && t[c].account != t[m].account && t[c].parent == Some(t[m].id)
  {
    if !Childless(t, m) {
      var c :| Live(t, c) && Under(t, m, c);
    }
    if c :| c in t && !t[c].trashed && t[c].parent == Some(t[m].id) {
      assert Under(t, m, c) || t[c].account != t[m].account;
    }
  }

  /** At the root the count and the listing always agree. */
  lemma RootHasChildrenIff(t: Table)
    ensures HasChildren(t, ROOT_INODE) <==> exists c :: Live(t, c) && Under(t, ROOT_INODE, c)
  {
    if c :| c in t && !t[c].trashed && t[c].parent.None? {
      assert Live(t, c) && Under(t, ROOT_INODE, c);
    }
  }
}
