/** Directory listings in pages: FUSE resumes at an offset, WinFSP after a name. */
module DirectoryPaging {
  import opened Prelude
  import opened VfsTree

  datatype Dirent = Dirent(ino: Inode, name: string)

  /** Bytes an entry takes in the reply buffer, by name. */
  type SizeOf = string -> nat

  /** How many entries from position `from` on fit in `room` bytes. */
  function Fitting(es: seq<Dirent>, from: nat, size: SizeOf, room: int): (n: nat)
    requires from <= |es|
    ensures from + n <= |es|
    decreases |es| - from
  {
    if from == |es| || size(es[from].name) > room then 0
    else 1 + Fitting(es, from + 1, size, room - size(es[from].name))
  }

  /** Bytes that `n` entries from position `from` on take together. */
  function TotalSize(es: seq<Dirent>, from: nat, size: SizeOf, n: nat): nat
    requires from + n <= |es|
    decreases n
  {
    if n == 0 then 0 else size(es[from].name) + TotalSize(es, from + 1, size, n - 1)
  }

  /** That many fit, and one more would not. */
  lemma {:induction false} FittingIsMost(es: seq<Dirent>, from: nat, size: SizeOf, room: nat)
    requires from <= |es|
    ensures var n := Fitting(es, from, size, room);
      && TotalSize(es, from, size, n) <= room
      && (from + n < |es| ==> TotalSize(es, from, size, n + 1) > room)
    decreases |es| - from
  {
    if from < |es| && size(es[from].name) <= room {
      FittingIsMost(es, from + 1, size, room - size(es[from].name));
    }
  }

  /** Every entry of the directory: itself, its parent (always the root), its children. */
  function AllEntries(ino: Inode, children: seq<Dirent>): seq<Dirent> {
    [Dirent(ino, "."), Dirent(ROOT_INODE, "..")] + children
  }

  /* ---- FUSE readdir ---- */

  /** One reply: as many entries from `offset` on as fit, each with the offset at
      which to resume. */
  method Readdir(ino: Inode, children: seq<Dirent>, offset: nat, size: SizeOf, capacity: nat)
      returns (page: seq<(Dirent, nat)>)
    ensures var all := AllEntries(ino, children);
      if offset > |all| then page == []
      else
        && |page| == Fitting(all, offset, size, capacity)
        && forall k :: 0 <= k < |page| ==> page[k] == (all[offset + k], offset + k + 1)
  {
    page := [];
    var total := 2 + |children|;
    var used := 0;
    ghost var all := AllEntries(ino, children);
    var i := offset;
    while i < total
      invariant |all| == total
      invariant |page| == i - offset && (page == [] || i <= total)
      invariant forall k :: 0 <= k < |page| ==> page[k] == (all[offset + k], offset + k + 1)
      invariant offset <= total ==> Fitting(all, offset, size, capacity) == |page| + Fitting(all, i, size, capacity - used)
    {
      var e := if i == 0 then Dirent(ino, ".")
               else if i == 1 then Dirent(ROOT_INODE, "..")
               else children[i - 2];
      assert e == all[i];
      if used + size(e.name) > capacity {
        break;
      }
      page := page + [(e, i + 1)];
      used := used + size(e.name);
      i := i + 1;
    }
  }

  /** A reader that resumes at the last offset it was given: the replies from the
      `j`-th capacity on. */
  function ReadFrom(all: seq<Dirent>, offset: nat, size: SizeOf, capacities: seq<nat>, j: nat): seq<Dirent>
    requires offset <= |all| && j <= |capacities|
    decreases |capacities| - j
  {
    if j == |capacities| then []
    else
      var n := Fitting(all, offset, size, capacities[j]);
      all[offset..offset + n] + ReadFrom(all, offset + n, size, capacities, j + 1)
  }

  predicate FitsAny(all: seq<Dirent>, size: SizeOf, capacity: nat) {
    forall i :: 0 <= i < |all| ==> size(all[i].name) <= capacity
  }

  /** Every reply has room for at least one entry, whichever comes next. */
  predicate RoomForOne(all: seq<Dirent>, size: SizeOf, capacities: seq<nat>) {
    forall k :: 0 <= k < |capacities| ==> FitsAny(all, size, capacities[k])
  }

  /** Position up to which the replies have got. */
  function Reached(all: seq<Dirent>, offset: nat, size: SizeOf, capacities: seq<nat>, j: nat): (r: nat)
    requires offset <= |all| && j <= |capacities|
    ensures offset <= r <= |all|
    decreases |capacities| - j
  {
    if j == |capacities| then offset
    else Reached(all, offset + Fitting(all, offset, size, capacities[j]), size, capacities, j + 1)
  }

  lemma {:induction false} PagesAreSlice(all: seq<Dirent>, offset: nat, size: SizeOf, capacities: seq<nat>, j: nat)
    requires offset <= |all| && j <= |capacities|
    ensures ReadFrom(all, offset, size, capacities, j) == all[offset..Reached(all, offset, size, capacities, j)]
    decreases |capacities| - j
  {
    if j < |capacities| {
      var n := Fitting(all, offset, size, capacities[j]);
      PagesAreSlice(all, offset + n, size, capacities, j + 1);
      JoinSlices(all, offset, offset + n, Reached(all, offset, size, capacities, j));
    }
  }

  lemma {:induction false} PagesGetFar(all: seq<Dirent>, offset: nat, size: SizeOf, capacities: seq<nat>, j: nat)
    requires offset <= |all| && j <= |capacities| && RoomForOne(all, size, capacities)
    ensures var r := Reached(all, offset, size, capacities, j); r == |all| || r >= offset + |capacities| - j
    decreases |capacities| - j
  {
    if j < |capacities| {
      assert FitsAny(all, size, capacities[j]);
      PagesGetFar(all, offset + Fitting(all, offset, size, capacities[j]), size, capacities, j + 1);
    }
  }

  /** However the reply buffers are sized, the pages are a prefix of the directory in
      order, and one call per entry is always enough to get all of it. */
  lemma PagesCoverOnce(all: seq<Dirent>, size: SizeOf, capacities: seq<nat>)
    requires RoomForOne(all, size, capacities)
    ensures ReadFrom(all, 0, size, capacities, 0) <= all
    ensures |capacities| >= |all| ==> ReadFrom(all, 0, size, capacities, 0) == all
  {
    PagesAreSlice(all, 0, size, capacities, 0);
    PagesGetFar(all, 0, size, capacities, 0);
    var r := Reached(all, 0, size, capacities, 0);
    assert all[0..r] <= all && all[0..|all|] == all;
  }

  /** ".", "..", and then each live child once, in the order of the listing. */
  ghost predicate IsWholeDirectory(t: Table, ino: Inode, es: seq<Dirent>, got: seq<Dirent>) {
    && |got| >= 2 && got[0] == Dirent(ino, ".") && got[1] == Dirent(0, "..") && got[2..] == es
    && (forall c :: Live(t, c) && Under(t, ino, c) <==> Lists(got[2..], c))
    && (forall k :: 0 <= k < |es| ==> Live(t, got[2..][k].ino) && Under(t, ino, got[2..][k].ino))
    && (forall j, k :: 0 <= j < k < |es| ==> got[2..][j].ino != got[2..][k].ino)
  }

  lemma EntriesAreWholeDirectory(t: Table, ino: Inode, es: seq<Dirent>)
    requires IsListing(t, ino, es)
    ensures IsWholeDirectory(t, ino, es, AllEntries(ino, es))
  {
    assert AllEntries(ino, es)[2..] == es;
    assert forall k :: 0 <= k < |es| ==> Lists(es, es[k].ino);
  }

  /** What a reader of a whole directory gets, however the replies are sized. */
  lemma {:induction false} DirectoryIsDelivered(t: Table, ino: Inode, es: seq<Dirent>, size: SizeOf, capacities: seq<nat>)
    requires IsListing(t, ino, es) && RoomForOne(AllEntries(ino, es), size, capacities)
    requires |capacities| >= |es| + 2
    ensures IsWholeDirectory(t, ino, es, ReadFrom(AllEntries(ino, es), 0, size, capacities, 0))
  {
    EntriesAreWholeDirectory(t, ino, es);
    PagesCoverOnce(AllEntries(ino, es), size, capacities);
  }

  /* ---- Names in order ---- */

  /** Bytewise order of names, which SQLite and Rust share. */
  predicate Before(a: string, b: string) {
    b != [] && (a == [] || a[0] < b[0] || (a[0] == b[0] && Before(a[1..], b[1..])))
  }

  /** At the first position where the two differ, `a` has the smaller character. */
  ghost predicate SmallerAtFirstDifference(a: string, b: string) {
    exists k :: 0 <= k < |a| && SmallerAt(a, b, k)
  }

  predicate SmallerAt(a: string, b: string, k: nat)
    requires k < |a|
  {
    k < |b| && a[k] < b[k] && forall i :: 0 <= i < k ==> a[i] == b[i]
  }

  lemma DifferenceInTails(a: string, b: string)
    requires a != [] && b != [] && a[0] == b[0]
    ensures SmallerAtFirstDifference(a, b) <==> SmallerAtFirstDifference(a[1..], b[1..])
  {
    if k :| 0 <= k < |a| && SmallerAt(a, b, k) {
      assert SmallerAt(a[1..], b[1..], k - 1);
    }
    if k :| 0 <= k < |a[1..]| && SmallerAt(a[1..], b[1..], k) {
      forall i | 0 <= i < k + 1 ensures a[i] == b[i] {
        assert i > 0 ==> a[1..][i - 1] == b[1..][i - 1];
      }
      assert SmallerAt(a, b, k + 1);
    }
  }

  lemma PrefixInTails(a: string, b: string)
    requires a != [] && b != [] && a[0] == b[0]
    ensures a < b <==> a[1..] < b[1..]
  {
    assert a == [a[0]] + a[1..] && b == [b[0]] + b[1..];
  }

  /** The first difference decides, and a prefix comes before what it is a prefix of. */
  lemma {:induction false} BeforeIff(a: string, b: string)
    ensures Before(a, b) <==> a < b || SmallerAtFirstDifference(a, b)
  {
    if a != [] && b != [] {
      if a[0] == b[0] {
        BeforeIff(a[1..], b[1..]);
        DifferenceInTails(a, b);
        PrefixInTails(a, b);
      } else {
        assert a[0] < b[0] ==> SmallerAt(a, b, 0);
      }
    }
  }

  lemma {:induction false} BeforeIsTotal(a: string, b: string)
    ensures Before(a, b) || a == b || Before(b, a)
  {
    if a != [] && b != [] && a[0] == b[0] {
      BeforeIsTotal(a[1..], b[1..]);
      assert a[1..] == b[1..] ==> a == [a[0]] + a[1..] == b;
    }
  }

  lemma {:induction false} BeforeIsTransitive(a: string, b: string, c: string)
    requires Before(a, b) && Before(b, c)
    ensures Before(a, c)
  {
    if a != [] && a[0] == b[0] && b[0] == c[0] {
      BeforeIsTransitive(a[1..], b[1..], c[1..]);
    }
  }

  lemma {:induction false} BeforeIsIrreflexive(a: string)
    ensures !Before(a, a)
  {
    if a != [] {
      BeforeIsIrreflexive(a[1..]);
    }
  }

  type Order = (string, string) -> bool

  ghost predicate StrictOrder(lt: Order) {
    && (forall a :: !lt(a, a))
    && (forall a, b, c :: lt(a, b) && lt(b, c) ==> lt(a, c))
  }

  const NAME_ORDER: Order := (a: string, b: string) => Before(a, b)

  lemma NameOrderIsStrict()
    ensures StrictOrder(NAME_ORDER)
  {
    forall a ensures !NAME_ORDER(a, a) {
      BeforeIsIrreflexive(a);
    }
    forall a, b, c | NAME_ORDER(a, b) && NAME_ORDER(b, c) ensures NAME_ORDER(a, c) {
      BeforeIsTransitive(a, b, c);
    }
  }

  predicate StrictlySorted(lt: Order, es: seq<Dirent>) {
    forall i, j :: 0 <= i < j < |es| ==> lt(es[i].name, es[j].name)
  }

  predicate Lists(es: seq<Dirent>, c: Inode) {
    exists k :: 0 <= k < |es| && es[k].ino == c
  }

  /** Rows in the order of their names. */
  predicate Sorted(t: Table, es: seq<Dirent>) {
    && (forall k :: 0 <= k < |es| ==> es[k].ino in t && es[k].name == t[es[k].ino].name)
    && (forall i, j :: 0 <= i < j < |es| ==> es[i].ino != es[j].ino)
    && (forall i, j :: 0 <= i < j < |es| ==> !Before(es[j].name, es[i].name))
  }

  /** ORDER BY name over the live rows listed under `p`. */
  ghost predicate IsListing(t: Table, p: Inode, es: seq<Dirent>) {
    Sorted(t, es) && forall c :: Lists(es, c) <==> Live(t, c) && Under(t, p, c)
  }

  lemma {:induction false} FirstByName(t: Table, inos: set<Inode>) returns (m: Inode)
    requires inos != {} && inos <= t.Keys
    ensures m in inos && forall i :: i in inos ==> !Before(t[i].name, t[m].name)
    decreases |inos|
  {
    var i :| i in inos;
    var rest := inos - {i};
    assert forall x :: x in inos ==> x == i || x in rest;
    BeforeIsIrreflexive(t[i].name);
    m := i;
    if rest != {} {
      m := FirstByName(t, rest);
      if Before(t[i].name, t[m].name) {
        forall j | j in rest ensures !Before(t[j].name, t[i].name) {
          if Before(t[j].name, t[i].name) {
            BeforeIsTransitive(t[j].name, t[i].name, t[m].name);
          }
        }
        m := i;
      }
    }
  }

  lemma {:induction false} SortByName(t: Table, inos: set<Inode>) returns (es: seq<Dirent>)
    requires inos <= t.Keys
    ensures Sorted(t, es) && forall c :: Lists(es, c) <==> c in inos
    decreases |inos|
  {
    if inos == {} {
      es := [];
    } else {
      var m := FirstByName(t, inos);
      var rest := SortByName(t, inos - {m});
      es := [Dirent(m, t[m].name)] + rest;
      forall k | 0 <= k < |rest| ensures rest[k].ino in inos && rest[k].ino != m {
        assert Lists(rest, rest[k].ino);
      }
      forall c ensures Lists(es, c) <==> c in inos {
        ListsCons(es[0], rest, c);
      }
    }
  }

  lemma ListsCons(first: Dirent, rest: seq<Dirent>, c: Inode)
    ensures Lists([first] + rest, c) <==> first.ino == c || Lists(rest, c)
  {
    var es := [first] + rest;
    assert es[0] == first;
    if k :| 0 <= k < |rest| && rest[k].ino == c {
      assert es[k + 1].ino == c;
    }
    if k :| 0 <= k < |es| && es[k].ino == c {
      assert k > 0 ==> rest[k - 1].ino == c;
    }
  }

  /** Every directory has a listing. */
  lemma ListingExists(t: Table, p: Inode) returns (es: seq<Dirent>)
    ensures IsListing(t, p, es)
  {
    es := SortByName(t, set c | c in t && Live(t, c) && Under(t, p, c));
  }

  /** In a sound tree a listing has no two equal names. */
  lemma ListingIsStrict(t: Table, p: Inode, es: seq<Dirent>)
    requires Sound(t) && IsListing(t, p, es)
    ensures StrictlySorted(NAME_ORDER, es)
  {
    forall i, j | 0 <= i < j < |es| ensures NAME_ORDER(es[i].name, es[j].name) {
      BeforeIsTotal(es[i].name, es[j].name);
      assert Lists(es, es[i].ino) && Lists(es, es[j].ino);
      if es[i].name == es[j].name {
        assert Child(t, p, es[i].name, es[i].ino) && Child(t, p, es[i].name, es[j].ino);
      }
    }
  }

  /* ---- WinFSP read_directory ---- */

  predicate IsAfter(lt: Order, marker: Option<string>, name: string) {
    marker.None? || lt(marker.value, name)
  }

  /** Position of the first entry after the marker, from `from` on. */
  function Skip(lt: Order, es: seq<Dirent>, from: nat, marker: Option<string>): (n: nat)
    requires from <= |es|
    ensures from <= n <= |es|
    ensures forall i :: from <= i < n ==> !IsAfter(lt, marker, es[i].name)
    ensures n < |es| ==> IsAfter(lt, marker, es[n].name)
    decreases |es| - from
  {
    if from == |es| || IsAfter(lt, marker, es[from].name) then from else Skip(lt, es, from + 1, marker)
  }

  lemma SkipToMarker(lt: Order, es: seq<Dirent>, k: nat)
    requires StrictOrder(lt) && StrictlySorted(lt, es) && k < |es|
    ensures Skip(lt, es, 0, Some(es[k].name)) == k + 1
  {
    var marker := Some(es[k].name);
    var n := Skip(lt, es, 0, marker);
    assert k + 1 < |es| ==> IsAfter(lt, marker, es[k + 1].name);
    assert !IsAfter(lt, marker, es[k].name);
  }

  /** The entries after the marker, as many as fit, for any list of children. */
  function PageAfter(lt: Order, es: seq<Dirent>, from: nat, marker: Option<string>, size: SizeOf, room: int): seq<Dirent>
    requires from <= |es|
    decreases |es| - from
  {
    if from == |es| then []
    else if !IsAfter(lt, marker, es[from].name) then PageAfter(lt, es, from + 1, marker, size, room)
    else if size(es[from].name) > room then []
    else [es[from]] + PageAfter(lt, es, from + 1, marker, size, room - size(es[from].name))
  }

  /** One reply. */
  method ReadDirectory(lt: Order, children: seq<Dirent>, marker: Option<string>, size: SizeOf, capacity: nat)
      returns (page: seq<Dirent>)
    ensures page == PageAfter(lt, children, 0, marker, size, capacity)
  {
    page := [];
    var used, i := 0, 0;
    while i < |children|
      invariant 0 <= i <= |children|
      invariant page + PageAfter(lt, children, i, marker, size, capacity - used)
             == PageAfter(lt, children, 0, marker, size, capacity)
    {
      var child := children[i];
      i := i + 1;
      if !IsAfter(lt, marker, child.name) {
        continue;
      }
      if used + size(child.name) > capacity {
        break;
      }
      assert page + ([child] + PageAfter(lt, children, i, marker, size, capacity - used - size(child.name)))
          == page + [child] + PageAfter(lt, children, i, marker, size, capacity - used - size(child.name));
      page := page + [child];
      used := used + size(child.name);
    }
  }

  /** Skipping first changes nothing. */
  lemma {:induction false} PageSkips(lt: Order, es: seq<Dirent>, from: nat, marker: Option<string>, size: SizeOf, room: int)
    requires from <= |es|
    ensures PageAfter(lt, es, from, marker, size, room)
         == PageAfter(lt, es, Skip(lt, es, from, marker), marker, size, room)
    decreases |es| - from
  {
    if from < |es| && !IsAfter(lt, marker, es[from].name) {
      PageSkips(lt, es, from + 1, marker, size, room);
    }
  }

  /** Past the marker a reply is a slice. */
  lemma {:induction false} PageTakes(lt: Order, es: seq<Dirent>, from: nat, marker: Option<string>, size: SizeOf, room: int)
    requires from <= |es|
    requires forall i :: from <= i < |es| ==> IsAfter(lt, marker, es[i].name)
    ensures PageAfter(lt, es, from, marker, size, room) == es[from..from + Fitting(es, from, size, room)]
    decreases |es| - from
  {
    if from < |es| && size(es[from].name) <= room {
      PageTakes(lt, es, from + 1, marker, size, room - size(es[from].name));
      JoinSlices(es, from, from + 1, from + Fitting(es, from, size, room));
    }
  }

  /** Among distinct sorted names a reply is a slice that starts after the marker. */
  lemma PageIsSlice(lt: Order, es: seq<Dirent>, marker: Option<string>, size: SizeOf, room: int)
    requires StrictOrder(lt) && StrictlySorted(lt, es)
    ensures var start := Skip(lt, es, 0, marker);
      PageAfter(lt, es, 0, marker, size, room) == es[start..start + Fitting(es, start, size, room)]
  {
    var start := Skip(lt, es, 0, marker);
    PageSkips(lt, es, 0, marker, size, room);
    forall i | start <= i < |es| ensures IsAfter(lt, marker, es[i].name) {
      assert start < i ==> lt(es[start].name, es[i].name);
    }
    PageTakes(lt, es, start, marker, size, room);
  }

  /** A reader that passes the last name it received as the next marker. */
  function ReadAfter(lt: Order, es: seq<Dirent>, marker: Option<string>, size: SizeOf, capacities: seq<nat>, j: nat): seq<Dirent>
    requires j <= |capacities|
    decreases |capacities| - j
  {
    if j == |capacities| then []
    else
      var page := PageAfter(lt, es, 0, marker, size, capacities[j]);
      page + ReadAfter(lt, es, NextMarker(page, marker), size, capacities, j + 1)
  }

  /** The marker for the next call. */
  function NextMarker(page: seq<Dirent>, marker: Option<string>): Option<string> {
    if page == [] then marker else Some(page[|page| - 1].name)
  }

  /** The next marker stands for the next position. */
  lemma MarkerMovesOn(lt: Order, es: seq<Dirent>, marker: Option<string>, n: nat)
    requires StrictOrder(lt) && StrictlySorted(lt, es)
    requires Skip(lt, es, 0, marker) + n <= |es|
    ensures var start := Skip(lt, es, 0, marker);
      Skip(lt, es, 0, NextMarker(es[start..start + n], marker)) == start + n
  {
    if n > 0 {
      SkipToMarker(lt, es, Skip(lt, es, 0, marker) + n - 1);
    }
  }

  /** The page after a marker is the one at its position, and its last name stands for the
      position after it. */
  predicate MarkerWorks(lt: Order, es: seq<Dirent>, marker: Option<string>, size: SizeOf, capacity: nat) {
    var start := Skip(lt, es, 0, marker);
    var page := PageAfter(lt, es, 0, marker, size, capacity);
    var n := Fitting(es, start, size, capacity);
    page == es[start..start + n] && Skip(lt, es, 0, NextMarker(page, marker)) == start + n
  }

  lemma OnePageByMarker(lt: Order, es: seq<Dirent>, marker: Option<string>, size: SizeOf, capacity: nat)
    requires StrictOrder(lt) && StrictlySorted(lt, es)
    ensures MarkerWorks(lt, es, marker, size, capacity)
  {
    PageIsSlice(lt, es, marker, size, capacity);
    MarkerMovesOn(lt, es, marker, Fitting(es, Skip(lt, es, 0, marker), size, capacity));
  }

  lemma {:induction false} OneMorePage(
    lt: Order, es: seq<Dirent>, marker: Option<string>, size: SizeOf, capacities: seq<nat>, j: nat, next: Option<string>)
    requires j < |capacities| && MarkerWorks(lt, es, marker, size, capacities[j])
    requires next == NextMarker(PageAfter(lt, es, 0, marker, size, capacities[j]), marker)
    requires ReadAfter(lt, es, next, size, capacities, j + 1)
          == ReadFrom(es, Skip(lt, es, 0, next), size, capacities, j + 1)
    ensures ReadAfter(lt, es, marker, size, capacities, j)
         == ReadFrom(es, Skip(lt, es, 0, marker), size, capacities, j)
  {
    var start, page := Skip(lt, es, 0, marker), PageAfter(lt, es, 0, marker, size, capacities[j]);
    ReadFromStep(es, start, size, capacities, j, page, ReadAfter(lt, es, next, size, capacities, j + 1));
  }

  lemma {:induction false} ReadFromStep(
    es: seq<Dirent>, start: nat, size: SizeOf, capacities: seq<nat>, j: nat, page: seq<Dirent>, rest: seq<Dirent>)
    requires start <= |es| && j < |capacities|
    requires var n := Fitting(es, start, size, capacities[j]);
      page == es[start..start + n] && rest == ReadFrom(es, start + n, size, capacities, j + 1)
    ensures ReadFrom(es, start, size, capacities, j) == page + rest
  {
  }

  lemma {:induction false} WorkingMarkersAreOffsets(
    lt: Order, es: seq<Dirent>, marker: Option<string>, size: SizeOf, capacities: seq<nat>, j: nat)
    requires forall m, capacity: nat :: MarkerWorks(lt, es, m, size, capacity)
    requires j <= |capacities|
    ensures ReadAfter(lt, es, marker, size, capacities, j)
         == ReadFrom(es, Skip(lt, es, 0, marker), size, capacities, j)
    decreases |capacities| - j
  {
    if j < |capacities| {
      var next := NextMarker(PageAfter(lt, es, 0, marker, size, capacities[j]), marker);
      WorkingMarkersAreOffsets(lt, es, next, size, capacities, j + 1);
      OneMorePage(lt, es, marker, size, capacities, j, next);
    }
  }

  /** With distinct sorted names, resuming by name reads the same pages as resuming
      by position, hence every child exactly once and in order. */
  lemma MarkerPagingIsOffsetPaging(
    lt: Order, es: seq<Dirent>, marker: Option<string>, size: SizeOf, capacities: seq<nat>, j: nat)
    requires StrictOrder(lt) && StrictlySorted(lt, es) && j <= |capacities|
    ensures ReadAfter(lt, es, marker, size, capacities, j)
         == ReadFrom(es, Skip(lt, es, 0, marker), size, capacities, j)
  {
    forall m, capacity: nat ensures MarkerWorks(lt, es, m, size, capacity) {
      OnePageByMarker(lt, es, m, size, capacity);
    }
    WorkingMarkersAreOffsets(lt, es, marker, size, capacities, j);
  }

  /** Paging through a directory of a sound tree by marker delivers its listing. */
  lemma MarkerPagesCoverOnce(t: Table, p: Inode, es: seq<Dirent>, size: SizeOf, capacities: seq<nat>)
    requires Sound(t) && IsListing(t, p, es) && RoomForOne(es, size, capacities)
    ensures ReadAfter(NAME_ORDER, es, None, size, capacities, 0) <= es
    ensures |capacities| >= |es| ==> ReadAfter(NAME_ORDER, es, None, size, capacities, 0) == es
  {
    ListingIsStrict(t, p, es);
    NameOrderIsStrict();
    MarkerPagingIsOffsetPaging(NAME_ORDER, es, None, size, capacities, 0);
    assert Skip(NAME_ORDER, es, 0, None) == 0;
    PagesCoverOnce(es, size, capacities);
  }
}
