// What the observer thread's scans of several roots, nested ones included, leave of a tree
// that stands still: after lost notifications, and for roots a command adds.
module Rescans {
  import opened Tables
  import opened PathTree
  import opened Recording
  import opened Scan
  import opened Observer
  import Watch

  /** What is on disk, by absolute path. */
  type World = map<Path, Node>

  /** A file has nothing below it. */
  ghost predicate WorldOk(world: World) {
    forall p, q :: p in world && q in world && p < q ==> world[p].isDir
  }

  /** What a walk of `root` can see of it. */
  function DiskOf(world: World, root: Path): Disk {
    map p | p in (set q | q in world && root < q :: q[|root|..]) && root + p in world :: world[root + p]
  }

  lemma DiskOfFacts(world: World, root: Path)
    requires WorldOk(world)
    ensures DiskOk(DiskOf(world, root))
    ensures forall p :: p in DiskOf(world, root) <==> p != [] && root + p in world
  {
    var disk := DiskOf(world, root);
    forall p ensures p in disk <==> p != [] && root + p in world {
      if p != [] && root + p in world {
        assert root < root + p && (root + p)[|root|..] == p;
      }
      if p in disk {
        var q :| q in world && root < q && q[|root|..] == p;
      }
    }
    forall p, q | p in disk && q in disk && p < q ensures disk[p].isDir {
      PrefixBelow(root, p, q);
    }
  }

  predicate FileAt(world: World, q: Path) {
    q in world && !world[q].isDir
  }

  /** The file's row is live under its path and holds its size and mtime. */
  ghost predicate SettledAt(t: Tree, world: World, q: Path)
    requires q in world
  {
    exists id: FileId :: RowIs(t, id, q, Some(world[q].len), world[q].mtime)
  }

  /** A live row of the path knows nothing of it. */
  ghost predicate BlankAt(t: Tree, q: Path) {
    exists id: FileId :: RowIs(t, id, q, None, None)
  }

  predicate Walked(walks: Walks, root: Path) {
    root in walks && root != []
  }

  /** The walks report the world truthfully and miss none of its files. */
  ghost predicate AllTruthful(world: World, roots: seq<Path>, walks: Walks) {
    forall root :: root in roots && Walked(walks, root) ==> Truthful(world, root, walks)
  }

  ghost predicate Truthful(world: World, root: Path, walks: Walks)
    requires Walked(walks, root)
  {
    Lists(walks[root], DiskOf(world, root)) && Covers(walks[root], DiskOf(world, root))
  }

  // ------------------------------------------------------------- one scan

  /** A walk touches only what is strictly below its root. */
  lemma {:induction false} WalkFrame(db: Db, rootId: FileId, root: Path, items: seq<Item>, id: FileId, at: Path)
    requires Sound(db) && LivePath(db.tree, rootId, root)
    requires LivePath(db.tree, id, at) && !(root < at)
    ensures var u := Walk(db, rootId, items).tree;
            id < |u.files| && u.files[id] == db.tree.files[id]
  {
    if items != [] {
      var init, last := items[..|items| - 1], items[|items| - 1];
      WalkFrame(db, rootId, root, init, id, at);
      WalkSound(db, rootId, root, init);
      var d := Walk(db, rootId, init);
      if Recordable(last) {
        GrowsLivePath(db.tree, d.tree, id, at);
        OutsideFrame(d.tree, rootId, root, last, id, at);
      }
    }
  }

  lemma OutsideFrame(t: Tree, rootId: FileId, root: Path, item: Item, id: FileId, at: Path)
    requires Valid(t) && LivePath(t, rootId, root) && Recordable(item)
    requires LivePath(t, id, at) && !(root < at)
    ensures var u := Observe(t, rootId, item).0;
            id < |u.files| && u.files[id] == t.files[id]
  {
    var dirs, name := item.path[..|item.path| - 1], item.path[|item.path| - 1];
    LivePathIsPath(t, id, at);
    EnsureDirsFrame(t, Some(rootId), root, dirs, id, at);
    EnsureDirsFacts(t, Some(rootId), root, dirs);
    var (t1, dir) := EnsureDirs(t, Some(rootId), dirs);
    GrowsLivePath(t, t1, id, at);
    assert root < root + dirs + [name];
    RecordAtFrame(t1, dir.value, root + dirs, name, item, id, at);
  }

  /** Every directory of an ensured chain is left without size and mtime. */
  lemma ChainBlank(t: Tree, chain: Path, q: Path)
    requires Valid(t) && q != [] && q <= chain
    ensures BlankAt(EnsureDirs(t, None, chain).0, q)
  {
    var init, name, rest := q[..|q| - 1], q[|q| - 1], chain[|q|..];
    assert init + [name] == q && q + rest == chain && [] + init == init;
    EnsureOneMore(t, None, init, name);
    EnsureDirsSplit(t, None, q, rest);
    EnsureDirsFacts(t, None, [], init);
    var (v, dir) := EnsureDirs(t, None, init);
    EnsureDirFacts(v, dir, init, name);
    EnsureDirBlank(v, dir, name);
    var (u, id) := EnsureDir(v, dir, name);
    LivePathIsPath(u, id, q);
    EnsureDirsFrame(u, Some(id), q, rest, id, q);
    EnsureDirsFacts(u, Some(id), q, rest);
    GrowsLivePath(u, EnsureDirs(t, None, chain).0, id, q);
    assert RowIs(EnsureDirs(t, None, chain).0, id, q, None, None);
  }

  lemma EnsureDirBlank(t: Tree, start: Option<FileId>, name: string)
    ensures var (u, id) := EnsureDir(t, start, name);
            id < |u.files| && u.files[id].size == None && u.files[id].mtime == None
  {
  }

  /** What one scan makes of a file: below the root it settles it; a file at the root or
      above is made a blank directory entry; and elsewhere it is as it was. */
  lemma ScanSettles(db: Db, root: Path, walks: Walks, world: World, q: Path)
    requires Sound(db) && WorldOk(world) && FileAt(world, q) && Walked(walks, root) && Truthful(world, root, walks)
    requires root < q
    ensures SettledAt(ScanIfThere(db, root, walks).tree, world, q)
  {
    var disk, p := DiskOf(world, root), q[|root|..];
    assert root + p == q;
    DiskOfFacts(world, root);
    FullScanSettles(db, root, disk, walks[root]);
    assert IsFile(disk, p);
    assert Settled(FullScan(db, root, walks[root]).tree, root, disk, p);
  }

  lemma ScanBlanks(db: Db, root: Path, walks: Walks, q: Path)
    requires Sound(db) && Walked(walks, root) && q != [] && q <= root
    ensures BlankAt(ScanIfThere(db, root, walks).tree, q)
  {
    ChainBlank(db.tree, root, q);
    var (d, rootId) := Entered(db, root);
    EnteredSound(db, root);
    var id: FileId :| RowIs(d.tree, id, q, None, None);
    WalkKeepsRow(d, rootId, root, walks[root], id, q, None, None);
  }

  lemma WalkKeepsRow(db: Db, rootId: FileId, root: Path, items: seq<Item>, id: FileId, q: Path, size: Option<int>, mtime: Option<int>)
    requires Sound(db) && LivePath(db.tree, rootId, root) && RowIs(db.tree, id, q, size, mtime) && !(root < q)
    ensures RowIs(Walk(db, rootId, items).tree, id, q, size, mtime)
  {
    WalkFrame(db, rootId, root, items, id, q);
    WalkSound(db, rootId, root, items);
    GrowsLivePath(db.tree, Walk(db, rootId, items).tree, id, q);
  }

  lemma ScanElsewhere(db: Db, root: Path, walks: Walks, id: FileId, q: Path, size: Option<int>, mtime: Option<int>)
    requires Sound(db) && RowIs(db.tree, id, q, size, mtime)
    requires Walked(walks, root) ==> !(root < q) && !(q <= root)
    ensures RowIs(ScanIfThere(db, root, walks).tree, id, q, size, mtime)
  {
    if Walked(walks, root) {
      var (d, rootId) := Entered(db, root);
      EnteredSound(db, root);
      LivePathIsPath(db.tree, id, q);
      assert [] + root == root;
      EnsureDirsFrame(db.tree, None, [], root, id, q);
      GrowsLivePath(db.tree, d.tree, id, q);
      WalkKeepsRow(d, rootId, root, walks[root], id, q, size, mtime);
    }
  }

  lemma ScanSound(db: Db, root: Path, walks: Walks)
    requires Sound(db)
    ensures Sound(ScanIfThere(db, root, walks))
  {
    if Walked(walks, root) {
      EnteredSound(db, root);
      WalkSound(Entered(db, root).0, Entered(db, root).1, root, walks[root]);
    }
  }

  lemma {:induction false} RescanSound(db: Db, roots: seq<Path>, walks: Walks)
    requires Sound(db)
    ensures Sound(Rescan(db, roots, walks))
  {
    if roots != [] {
      RescanSound(db, roots[..|roots| - 1], walks);
      ScanSound(Rescan(db, roots[..|roots| - 1], walks), roots[|roots| - 1], walks);
    }
  }

  /** Whatever a walk lists, directories included, is live at its path at the end. */
  lemma {:induction false} ListedLive(db: Db, rootId: FileId, root: Path, items: seq<Item>, i: nat)
    requires Sound(db) && LivePath(db.tree, rootId, root) && i < |items| && Recordable(items[i])
    ensures LiveAt(Walk(db, rootId, items).tree, root + items[i].path)
  {
    var init, last := items[..|items| - 1], items[|items| - 1];
    var d := Walk(db, rootId, init);
    WalkSound(db, rootId, root, init);
    if i == |init| {
      var id := ObserveFacts(d.tree, rootId, root, last);
      assert LivePath(Walk(db, rootId, items).tree, id, root + last.path);
    } else {
      ListedLive(db, rootId, root, init, i);
      var id: FileId :| LivePath(d.tree, id, root + items[i].path);
      StepSound(d, rootId, root, last);
      GrowsLivePath(d.tree, Walk(db, rootId, items).tree, id, root + items[i].path);
    }
  }

  // ------------------------------------------------------------ all roots

  /** Of the roots walked that have to do with `q`, the last one has it below itself. */
  predicate ListedLast(roots: seq<Path>, walks: Walks, q: Path) {
    if roots == [] then false else
    var root := roots[|roots| - 1];
    if Walked(walks, root) && root < q then true
    else if Walked(walks, root) && q <= root then false
    else ListedLast(roots[..|roots| - 1], walks, q)
  }

  lemma {:induction false} ListedLastSettles(db: Db, roots: seq<Path>, walks: Walks, world: World, q: Path)
    requires Sound(db) && WorldOk(world) && FileAt(world, q) && AllTruthful(world, roots, walks)
    requires ListedLast(roots, walks, q)
    ensures SettledAt(Rescan(db, roots, walks).tree, world, q)
  {
    var init, root := roots[..|roots| - 1], roots[|roots| - 1];
    var d := Rescan(db, init, walks);
    RescanSound(db, init, walks);
    if Walked(walks, root) && root < q {
      ScanSettles(d, root, walks, world, q);
    } else {
      ListedLastSettles(db, init, walks, world, q);
      var id: FileId :| RowIs(d.tree, id, q, Some(world[q].len), world[q].mtime);
      ScanElsewhere(d, root, walks, id, q, Some(world[q].len), world[q].mtime);
    }
  }

  lemma {:induction false} RootLastBlanks(db: Db, roots: seq<Path>, walks: Walks, q: Path, i: nat)
    requires Sound(db) && q != [] && !ListedLast(roots, walks, q)
    requires i < |roots| && Walked(walks, roots[i]) && roots[i] < q
    ensures BlankAt(Rescan(db, roots, walks).tree, q)
  {
    var init, root := roots[..|roots| - 1], roots[|roots| - 1];
    var d := Rescan(db, init, walks);
    RescanSound(db, init, walks);
    if Walked(walks, root) && q <= root {
      ScanBlanks(d, root, walks, q);
    } else {
      RootLastBlanks(db, init, walks, q, i);
      var id: FileId :| RowIs(d.tree, id, q, None, None);
      ScanElsewhere(d, root, walks, id, q, None, None);
    }
  }

  /** After an overflow, a file below a walked root is settled exactly if no root at or
      below the file itself was walked after the last one above it. */
  lemma OverflowSettlesIff(db: Db, roots: seq<Path>, skip: seq<string>, stat: Stat, walks: Walks, at: int, world: World,
                           q: Path, i: nat)
    requires Sound(db) && WorldOk(world) && FileAt(world, q) && AllTruthful(world, roots, walks)
    requires i < |roots| && Walked(walks, roots[i]) && roots[i] < q
    ensures SettledAt(Applied(db, roots, skip, Watch.Overflowed, stat, walks, at).0.tree, world, q)
            <==> ListedLast(roots, walks, q)
  {
    var after := Rescan(db, roots, walks);
    RescanSound(db, roots, walks);
    if ListedLast(roots, walks, q) {
      ListedLastSettles(db, roots, walks, world, q);
    } else {
      RootLastBlanks(db, roots, walks, q, i);
      var id: FileId :| RowIs(after.tree, id, q, None, None);
      if SettledAt(after.tree, world, q) {
        var other: FileId :| RowIs(after.tree, other, q, Some(world[q].len), world[q].mtime);
        LivePathUnique(after.tree, id, other, q);
        assert false;
      }
    }
  }

  /** No root is a file, or inside one. */
  ghost predicate RootsAreNoFiles(world: World, roots: seq<Path>, walks: Walks) {
    forall q, root :: FileAt(world, q) && root in roots && Walked(walks, root) ==> !(q <= root)
  }

  lemma {:induction false} NoFileRoots(world: World, roots: seq<Path>, walks: Walks, q: Path, i: nat)
    requires RootsAreNoFiles(world, roots, walks) && FileAt(world, q)
    requires i < |roots| && Walked(walks, roots[i]) && roots[i] < q
    ensures ListedLast(roots, walks, q)
  {
    var init := roots[..|roots| - 1];
    if i < |init| {
      assert init[i] == roots[i];
      NoFileRoots(world, init, walks, q, i);
    }
  }

  /** After an overflow every file of every root is settled, roots within roots included. */
  lemma OverflowSettles(db: Db, roots: seq<Path>, skip: seq<string>, stat: Stat, walks: Walks, at: int, world: World)
    requires Sound(db) && WorldOk(world) && AllTruthful(world, roots, walks) && RootsAreNoFiles(world, roots, walks)
    ensures var (after, queued) := Applied(db, roots, skip, Watch.Overflowed, stat, walks, at);
            && queued == None && Sound(after)
            && forall i, q :: 0 <= i < |roots| && Walked(walks, roots[i]) && FileAt(world, q) && roots[i] < q
                 ==> SettledAt(after.tree, world, q)
  {
    RescanSound(db, roots, walks);
    forall i, q | 0 <= i < |roots| && Walked(walks, roots[i]) && FileAt(world, q) && roots[i] < q
      ensures SettledAt(Applied(db, roots, skip, Watch.Overflowed, stat, walks, at).0.tree, world, q)
    {
      NoFileRoots(world, roots, walks, q, i);
      OverflowSettlesIff(db, roots, skip, stat, walks, at, world, q, i);
    }
  }

  // ------------------------------------------------------------- commands

  /** The roots a command scans: those not listed when their turn comes. */
  function Scanned(roots: seq<Path>, more: seq<Path>, walks: Walks, watchable: set<Path>): (r: (seq<Path>, seq<Path>)) {
    if more == [] then ([], roots)
    else
      var root := more[|more| - 1];
      var (scanned, list) := Scanned(roots, more[..|more| - 1], walks, watchable);
      if root in list then (scanned, list)
      else (scanned + [root], if Usable(root, walks, watchable) then list + [root] else list)
  }

  lemma {:induction false} CommandScans(db: Db, roots: seq<Path>, more: seq<Path>, walks: Walks, watchable: set<Path>)
    ensures var (scanned, list) := Scanned(roots, more, walks, watchable);
            AllAdded(db, roots, more, walks, watchable) == (Rescan(db, scanned, walks), list)
  {
    if more != [] {
      var init, root := more[..|more| - 1], more[|more| - 1];
      CommandScans(db, roots, init, walks, watchable);
      RescanOneMore(db, Scanned(roots, init, walks, watchable).0, root, walks);
    }
  }

  lemma RescanOneMore(db: Db, roots: seq<Path>, root: Path, walks: Walks)
    ensures Rescan(db, roots + [root], walks) == ScanIfThere(Rescan(db, roots, walks), root, walks)
  {
    assert (roots + [root])[..|roots|] == roots;
  }

  lemma {:induction false} ScannedFacts(roots: seq<Path>, more: seq<Path>, walks: Walks, watchable: set<Path>, r: Path)
    ensures var (scanned, list) := Scanned(roots, more, walks, watchable);
            (r in scanned ==> r in more) && (r in list ==> r in roots || (r in scanned && Usable(r, walks, watchable)))
  {
    if more != [] {
      ScannedFacts(roots, more[..|more| - 1], walks, watchable, r);
    }
  }

  /** A command leaves every file of every root it newly lists settled. */
  lemma CommandSettles(db: Db, roots: seq<Path>, more: seq<Path>, walks: Walks, watchable: set<Path>, world: World)
    requires Sound(db) && WorldOk(world) && AllTruthful(world, more, walks) && RootsAreNoFiles(world, more, walks)
    ensures var (after, list) := AllAdded(db, roots, more, walks, watchable);
            && Sound(after)
            && forall r, q :: r in list && r !in roots && FileAt(world, q) && r < q ==> SettledAt(after.tree, world, q)
  {
    var (scanned, list) := Scanned(roots, more, walks, watchable);
    CommandScans(db, roots, more, walks, watchable);
    RescanSound(db, scanned, walks);
    forall r ensures r in scanned ==> r in more { ScannedFacts(roots, more, walks, watchable, r); }
    forall r, q | r in list && r !in roots && FileAt(world, q) && r < q
      ensures SettledAt(Rescan(db, scanned, walks).tree, world, q)
    {
      ScannedFacts(roots, more, walks, watchable, r);
      FreshSettles(db, scanned, walks, world, r, q);
    }
  }

  lemma FreshSettles(db: Db, scanned: seq<Path>, walks: Walks, world: World, r: Path, q: Path)
    requires Sound(db) && WorldOk(world) && AllTruthful(world, scanned, walks) && RootsAreNoFiles(world, scanned, walks)
    requires r in scanned && Walked(walks, r) && FileAt(world, q) && r < q
    ensures SettledAt(Rescan(db, scanned, walks).tree, world, q)
  {
    var i :| 0 <= i < |scanned| && scanned[i] == r;
    NoFileRoots(world, scanned, walks, q, i);
    ListedLastSettles(db, scanned, walks, world, q);
  }
}
