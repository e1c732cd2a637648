/** Resolving a path component by component, as the WinFSP callbacks do, against the
    parent chain: the two undo each other. */
module VfsWalk {
  import opened Prelude
  import opened VfsTree
  import opened VfsCallbacks

  /** `c` is the one entry whose path is `path`. */
  ghost predicate EndsAt(t: Table, path: seq<string>, c: Inode) {
    HasChain(t, c) && PathOf(t, c) == path && forall e: Inode :: HasChain(t, e) && PathOf(t, e) == path ==> e == c
  }

  ghost predicate NoEntryAt(t: Table, path: seq<string>) {
    forall e: Inode :: HasChain(t, e) ==> PathOf(t, e) != path
  }

  /** What a walk along `path` should give. */
  ghost predicate Resolves(t: Table, path: seq<string>, r: Option<Inode>) {
    if r.Some? then EndsAt(t, path, r.value) else NoEntryAt(t, path)
  }

  /** The walk of `open`: names only, no check of what kind the rows are. */
  method ResolvePath(files: Table, components: seq<string>) returns (r: Option<Inode>)
    ensures Sound(files) ==> Resolves(files, components, r)
  {
    var current := ROOT_INODE;
    RootEndsEmptyPath(files);
    for k := 0 to |components|
      invariant Sound(files) ==> EndsAt(files, components[..k], current)
    {
      var found := LookupByParentAndName(files, current, components[k]);
      assert components[..k] + [components[k]] == components[..k + 1];
      if Sound(files) {
        StepOfWalk(files, current, components[..k], components[k], found);
      }
      if found.None? {
        if Sound(files) {
          NoPathBeyond(files, components, k + 1);
        }
        return None;
      }
      current := found.value;
    }
    assert components[..|components|] == components;
    return Some(current);
  }

  datatype Status = NameNotFound | NotADirectory

  /** The walk of `get_security_by_name`: every component but the last has to be a
      folder.  It finds the same entries as `open`. */
  method SecurityByName(files: Table, components: seq<string>) returns (r: Result<Inode, Status>)
    requires components != []
    ensures Sound(files) ==> Resolves(files, components, if r.Ok? then Some(r.value) else None)
    ensures Sound(files) ==> (r == Err(NotADirectory) <==> FileOnTheWay(files, components))
  {
    r := Err(NameNotFound);
    var current := ROOT_INODE;
    RootEndsEmptyPath(files);
    for k := 0 to |components|
      invariant r == if k == |components| then Ok(current) else Err(NameNotFound)
      invariant k < |components| ==> IsDirectory(files, current)
      invariant Sound(files) ==> EndsAt(files, components[..k], current)
    {
      var found := LookupByParentAndName(files, current, components[k]);
      assert components[..k] + [components[k]] == components[..k + 1];
      if Sound(files) {
        StepOfWalk(files, current, components[..k], components[k], found);
      }
      if found.None? {
        if Sound(files) {
          NoPathBeyond(files, components, k + 1);
          NoFileBeforeDirectory(files, components, k, current);
        }
        return Err(NameNotFound);
      }
      current := found.value;
      if k == |components| - 1 {
        r := Ok(current);
      } else if !files[current].kind.Folder? {
        if Sound(files) {
          NoPathBelowFile(files, current, components, k + 1);
          assert FileAt(files, components[..k + 1]);
        }
        return Err(NotADirectory);
      }
    }
    assert components[..|components|] == components;
    if Sound(files) {
      NoFileAbove(files, components, |components|, current);
    }
  }

  ghost predicate FileAt(t: Table, path: seq<string>) {
    exists c :: Live(t, c) && !t[c].kind.Folder? && EndsAt(t, path, c)
  }

  /** A proper prefix of the path leads to something that is no folder. */
  ghost predicate FileOnTheWay(t: Table, path: seq<string>) {
    exists k :: 0 < k < |path| && FileAt(t, path[..k])
  }

  /** Everything above an entry is a directory. */
  lemma NoFileAbove(t: Table, path: seq<string>, n: nat, c: Inode)
    requires Sound(t) && n <= |path| && EndsAt(t, path[..n], c)
    ensures forall k :: 0 < k < n ==> !FileAt(t, path[..k])
  {
    forall k | 0 < k < n ensures !FileAt(t, path[..k]) {
      var p := PrefixOfPath(t, c, path[..n], k);
      assert path[..n][..k] == path[..k];
    }
  }

  /** The walk has come to a directory and finds nothing below it. */
  lemma NoFileBeforeDirectory(t: Table, path: seq<string>, n: nat, c: Inode)
    requires Sound(t) && n < |path| && EndsAt(t, path[..n], c) && IsDirectory(t, c) && NoEntryAt(t, path[..n + 1])
    ensures !FileOnTheWay(t, path)
  {
    NoFileAbove(t, path, n, c);
    forall k | 0 < k < |path| ensures !FileAt(t, path[..k]) {
      if k > n {
        assert path[..k][..n + 1] == path[..n + 1];
        NoPathBeyond(t, path[..k], n + 1);
      }
    }
  }

  /** Walking the path of any entry returns that entry, at every depth. */
  lemma WalkUndoesPath(t: Table, c: Inode, r: Option<Inode>)
    requires Sound(t) && HasChain(t, c) && Resolves(t, PathOf(t, c), r)
    ensures r == Some(c)
  {
    EndOfPath(t, c);
  }

  lemma RootEndsEmptyPath(t: Table)
    ensures Sound(t) ==> EndsAt(t, [], ROOT_INODE)
  {
    if Sound(t) {
      RootHasChain(t);
      EndOfPath(t, ROOT_INODE);
    }
  }

  /** A path has at most one end. */
  lemma EndOfPath(t: Table, c: Inode)
    requires Sound(t) && HasChain(t, c)
    ensures EndsAt(t, PathOf(t, c), c)
  {
    forall e | HasChain(t, e) && PathOf(t, e) == PathOf(t, c) ensures e == c {
      PathInjective(t, ChainOf(t, e), ChainOf(t, c));
    }
  }

  /** An entry with a nonempty path is found under the entry with the path above it. */
  lemma ParentOfPath(t: Table, e: Inode, path: seq<string>, name: string) returns (p: Inode)
    requires Sound(t) && HasChain(t, e) && PathOf(t, e) == path + [name]
    ensures HasChain(t, p) && PathOf(t, p) == path && Child(t, p, name, e) && IsDirectory(t, p)
  {
    assert ChainOf(t, e).Down?;
    p := ParentOfLive(t, e);
    PathStep(t, p, e);
    assert (path + [name])[..|path|] == path && (path + [name])[|path|] == name;
    assert PathOf(t, e)[..|path|] == PathOf(t, p);
  }

  lemma StepOfWalk(t: Table, p: Inode, path: seq<string>, name: string, found: Option<Inode>)
    requires Sound(t) && EndsAt(t, path, p)
    requires found.Some? ==> Child(t, p, name, found.value)
    requires found.None? ==> forall c :: !Child(t, p, name, c)
    ensures Resolves(t, path + [name], found)
  {
    if found.Some? {
      UnderMeansEdge(t, p, found.value);
      PathStep(t, p, found.value);
      EndOfPath(t, found.value);
    } else {
      forall e: Inode | HasChain(t, e) ensures PathOf(t, e) != path + [name] {
        if PathOf(t, e) == path + [name] {
          var q := ParentOfPath(t, e, path, name);
        }
      }
    }
  }

  lemma {:induction false} PrefixOfPath(t: Table, e: Inode, path: seq<string>, k: nat) returns (p: Inode)
    requires Sound(t) && HasChain(t, e) && PathOf(t, e) == path && k <= |path|
    ensures HasChain(t, p) && PathOf(t, p) == path[..k] && (k < |path| ==> IsDirectory(t, p))
    decreases |path|
  {
    if k == |path| {
      assert path[..k] == path;
      p := e;
    } else {
      var n := |path| - 1;
      assert path == path[..n] + [path[n]];
      p := ParentOfPath(t, e, path[..n], path[n]);
      if k < n {
        assert path[..n][..k] == path[..k];
        p := PrefixOfPath(t, p, path[..n], k);
      }
    }
  }

  lemma NoPathBeyond(t: Table, path: seq<string>, k: nat)
    requires Sound(t) && k <= |path| && NoEntryAt(t, path[..k])
    ensures NoEntryAt(t, path)
  {
    forall e: Inode | HasChain(t, e) ensures PathOf(t, e) != path {
      if PathOf(t, e) == path {
        var _ := PrefixOfPath(t, e, path, k);
      }
    }
  }

  lemma NoPathBelowFile(t: Table, c: Inode, path: seq<string>, k: nat)
    requires Sound(t) && k < |path| && Live(t, c) && !t[c].kind.Folder? && EndsAt(t, path[..k], c)
    ensures NoEntryAt(t, path)
  {
    forall e: Inode | HasChain(t, e) ensures PathOf(t, e) != path {
      if PathOf(t, e) == path {
        var p := PrefixOfPath(t, e, path, k);
      }
    }
  }
}
