// Excluded directories: what the scan prunes, what the watch ignores, and that nothing
// below an excluded directory ever enters the store.
module Exclusion {
  import opened Tables
  import opened PathTree
  import opened Recording
  import opened Renaming
  import opened Paths
  import opened Interrupted
  import opened Scan

  /** `is_excluded`: a component of the path is an excluded name. */
  predicate Excluded(path: Path, skip: seq<string>) {
    exists i :: 0 <= i < |path| && path[i] in skip
  }

  /** What the walk yields when it prunes excluded directories below the root: never one of
      them, and nothing below one. */
  predicate Pruned(item: Item, skip: seq<string>) {
    Recordable(item) ==>
      !Excluded(if item.isDir then item.path else item.path[..|item.path| - 1], skip)
  }

  ghost predicate AllPruned(items: seq<Item>, skip: seq<string>) {
    forall i :: 0 <= i < |items| ==> Pruned(items[i], skip)
  }

  /** Of the entries a scan yields, the watch ignores exactly the files that have an excluded
      directory's name, and, where the root itself lies inside an excluded directory, all. */
  lemma ScannedButIgnoredIff(root: Path, item: Item, skip: seq<string>)
    requires Recordable(item) && Pruned(item, skip)
    ensures Excluded(root + item.path, skip) <==>
              Excluded(root, skip) || (!item.isDir && item.path[|item.path| - 1] in skip)
  {
    var path, dirs := root + item.path, item.path[..|item.path| - 1];
    if item.isDir {
      RestVisible(item.path, |item.path| - 1, skip);
      assert item.path[|item.path| - 1] !in skip;
    }
    forall k | 0 <= k < |path| - 1 ensures path[k] in skip ==> k < |root| && root[k] in skip {
      assert path[k] == if k < |root| then root[k] else dirs[k - |root|];
    }
    assert path[|path| - 1] == item.path[|item.path| - 1];
    assert forall k :: 0 <= k < |root| ==> root[k] == path[k];
  }

  // ------------------------------------------------------------- invariant

  /** Row `p`, if any, does not have an excluded name. */
  predicate Visible(t: Tree, skip: seq<string>, p: Option<FileId>) {
    p.Some? ==>
      && p.value < |t.files| && t.files[p.value].component < |t.names|
      && t.names[t.files[p.value].component] !in skip
  }

  /** Nothing is stored below a row with an excluded name. */
  ghost predicate NothingBelowExcluded(t: Tree, skip: seq<string>) {
    forall i :: 0 <= i < |t.files| ==> Visible(t, skip, t.files[i].parent)
  }

  /** ... so no stored path goes through an excluded directory. */
  lemma {:induction false} StoredPathsVisible(t: Tree, skip: seq<string>, id: FileId, path: Path)
    requires NothingBelowExcluded(t, skip) && HasPath(t, id, path)
    ensures !Excluded(path[..|path| - 1], skip)
    decreases |path|
  {
    if t.files[id].parent.Some? {
      var p := t.files[id].parent.value;
      var dir := path[..|path| - 1];
      StoredPathsVisible(t, skip, p, dir);
      assert Visible(t, skip, Some(p));
      assert forall i :: 0 <= i < |dir| - 1 ==> dir[i] == dir[..|dir| - 1][i];
    }
  }

  lemma VisibleExtends(t: Tree, u: Tree, skip: seq<string>, p: Option<FileId>)
    requires Visible(t, skip, p) && Extends(t, u)
    ensures Visible(u, skip, p)
  {
    if p.Some? {
      assert SamePlace(t.files[p.value], u.files[p.value]);
    }
  }

  /** New rows below visible ones keep the invariant. */
  lemma ExtendsVisible(t: Tree, u: Tree, skip: seq<string>, p: Option<FileId>)
    requires NothingBelowExcluded(t, skip) && Extends(t, u) && Visible(t, skip, p)
    requires forall i :: |t.files| <= i < |u.files| ==> u.files[i].parent == p
    ensures NothingBelowExcluded(u, skip)
  {
    VisibleExtends(t, u, skip, p);
    forall i | 0 <= i < |u.files| ensures Visible(u, skip, u.files[i].parent) {
      if i < |t.files| {
        assert SamePlace(t.files[i], u.files[i]);
        VisibleExtends(t, u, skip, t.files[i].parent);
      }
    }
  }

  lemma EntryVisible(t: Tree, skip: seq<string>, p: Option<FileId>, name: string, isDir: bool, size: Option<int>, mtime: Option<int>)
    requires Valid(t) && NothingBelowExcluded(t, skip) && Visible(t, skip, p)
    ensures var (t1, c) := Intern(t, name);
            var (u, id) := Upsert(t1, p, c, isDir, size, mtime);
            NothingBelowExcluded(u, skip) && (name !in skip ==> Visible(u, skip, Some(id)))
  {
    var (t1, c) := Intern(t, name);
    InternFacts(t, name);
    VisibleExtends(t, t1, skip, p);
    UpsertFacts(t1, p, c, isDir, size, mtime);
    var u := Upsert(t1, p, c, isDir, size, mtime).0;
    GrowsTransitive(t, t1, u);
    ExtendsVisible(t, u, skip, p);
  }

  lemma {:induction false} DirsVisible(t: Tree, skip: seq<string>, start: Option<FileId>, dir: Path, path: Path)
    requires Valid(t) && NothingBelowExcluded(t, skip) && LiveStart(t, start, dir)
    requires Visible(t, skip, start) && !Excluded(path, skip)
    ensures var (u, id) := EnsureDirs(t, start, path);
            NothingBelowExcluded(u, skip) && Visible(u, skip, id)
    decreases |path|
  {
    if path != [] {
      var (t1, id) := EnsureDir(t, start, path[0]);
      EnsureDirFacts(t, start, dir, path[0]);
      assert path[0] !in skip;
      EntryVisible(t, skip, start, path[0], true, None, None);
      RestVisible(path, 1, skip);
      DirsVisible(t1, skip, Some(id), dir + [path[0]], path[1..]);
    }
  }

  lemma RestVisible(path: Path, n: nat, skip: seq<string>)
    requires n <= |path| && !Excluded(path, skip)
    ensures !Excluded(path[n..], skip) && !Excluded(path[..n], skip)
  {
    assert forall i :: 0 <= i < |path| - n ==> path[n..][i] == path[n + i];
  }

  // ---------------------------------------------------------- observations

  lemma ParentVisible(t: Tree, skip: seq<string>, root: Path, path: Path)
    requires Valid(t) && NothingBelowExcluded(t, skip)
    requires root <= path && root != [] && !Excluded(path, skip)
    ensures var (u, dir) := EnterParent(t, root, path);
            NothingBelowExcluded(u, skip) && Visible(u, skip, dir)
  {
    EnterParentFacts(t, root, path);
    if root == path {
      assert ParentDirs(root, path) == path;
    } else {
      ParentDirsInside(root, path);
      RestVisible(path, |path| - 1, skip);
    }
    DirsVisible(t, skip, None, [], ParentDirs(root, path));
  }

  lemma LookupVisible(t: Tree, skip: seq<string>, root: Path, path: Path)
    requires Valid(t) && NothingBelowExcluded(t, skip)
    requires root <= path && !Excluded(path, skip)
    ensures NothingBelowExcluded(LookupParent(t, root, path).0, skip)
  {
    RestVisible(path, |root|, skip);
    assert path[..|root|] == root;
    DirsVisible(t, skip, None, [], root);
  }

  lemma FindVisible(t: Tree, skip: seq<string>, roots: seq<Path>, path: Path)
    requires Valid(t) && NothingBelowExcluded(t, skip) && !Excluded(path, skip)
    ensures NothingBelowExcluded(LookupFile(t, roots, path).0, skip)
  {
    if OwningRoot(roots, path).Some? {
      LookupVisible(t, skip, OwningRoot(roots, path).value, path);
    }
  }

  lemma TombstoneVisible(t: Tree, skip: seq<string>, id: FileId, at: int)
    requires Valid(t) && NothingBelowExcluded(t, skip) && id < |t.files|
    ensures NothingBelowExcluded(Tombstone(t, id, at), skip)
  {
    TombstoneFacts(t, id, at);
    ExtendsVisible(t, Tombstone(t, id, at), skip, None);
  }

  lemma RemovalVisible(db: Db, skip: seq<string>, roots: seq<Path>, path: Path, at: int)
    requires Sound(db) && [] !in roots && NothingBelowExcluded(db.tree, skip) && !Excluded(path, skip)
    ensures NothingBelowExcluded(RecordRemoval(db, roots, path, at).0.tree, skip)
  {
    var owner := OwningRoot(roots, path);
    if owner.Some? && path != [] && LookupName(db.tree.names, path[|path| - 1]).Some? {
      var c := LookupName(db.tree.names, path[|path| - 1]).value;
      LookupVisible(db.tree, skip, owner.value, path);
      LookupParentFacts(db.tree, owner.value, path);
      var (u, parent, ok) := LookupParent(db.tree, owner.value, path);
      if parent.Some? && LiveEntry(u.files, parent, c).Some? {
        TombstoneVisible(u, skip, LiveEntry(u.files, parent, c).value, at);
      }
    }
  }

  lemma PathVisible(db: Db, skip: seq<string>, roots: seq<Path>, path: Path, stat: Stat, at: int)
    requires Sound(db) && [] !in roots && NothingBelowExcluded(db.tree, skip) && !Excluded(path, skip)
    ensures NothingBelowExcluded(RecordPath(db, roots, path, stat, at).0.tree, skip)
  {
    var owner := OwningRoot(roots, path);
    if owner.Some? {
      if stat.Missing? {
        RemovalVisible(db, skip, roots, path, at);
      } else if stat.Found? {
        ParentVisible(db.tree, skip, owner.value, path);
        EnterParentFacts(db.tree, owner.value, path);
        var (t1, dir) := EnterParent(db.tree, owner.value, path);
        EntryVisible(t1, skip, dir, path[|path| - 1], stat.isDir, SizeOf(stat.isDir, stat.len), stat.mtime);
      }
    }
  }

  lemma MoveVisible(t: Tree, skip: seq<string>, m: FileId, q: FileId, c: ComponentId)
    requires NothingBelowExcluded(t, skip) && m < |t.files| && Visible(t, skip, Some(q))
    requires c < |t.names| && t.names[c] !in skip
    ensures NothingBelowExcluded(Move(t, m, q, c), skip)
  {
    var u := Move(t, m, q, c);
    forall i | 0 <= i < |u.files| ensures Visible(u, skip, u.files[i].parent) {
      assert Visible(t, skip, t.files[i].parent);
    }
  }

  lemma DestinationVisible(t: Tree, skip: seq<string>, roots: seq<Path>, to: Path)
    requires Valid(t) && NothingBelowExcluded(t, skip) && Inside(roots, to) && !Excluded(to, skip)
    ensures var (u, dir, c, there) := Destination(t, roots, OwningRoot(roots, to).value, to);
            && Valid(u) && NothingBelowExcluded(u, skip) && Visible(u, skip, dir)
            && c < |u.names| && u.names[c] !in skip
  {
    var root := OwningRoot(roots, to).value;
    ParentVisible(t, skip, root, to);
    EnterParentFacts(t, root, to);
    var (t1, dir) := EnterParent(t, root, to);
    InternFacts(t1, to[|to| - 1]);
    var t2 := Intern(t1, to[|to| - 1]).0;
    ExtendsVisible(t1, t2, skip, None);
    VisibleExtends(t1, t2, skip, dir);
    FindVisible(t2, skip, roots, to);
    LookupFileFacts(t2, roots, to);
    VisibleExtends(t2, LookupFile(t2, roots, to).0, skip, dir);
    assert to[|to| - 1] !in skip;
  }

  lemma RenameVisible(db: Db, skip: seq<string>, roots: seq<Path>, from: Path, to: Path, stat: Stat, at: int)
    requires Sound(db) && Movable(roots, from, to) && NothingBelowExcluded(db.tree, skip)
    requires !Excluded(from, skip) && !Excluded(to, skip)
    ensures NothingBelowExcluded(RecordRename(db, roots, from, to, stat, at).0.tree, skip)
  {
    if OwningRoot(roots, to).None? {
      RemovalVisible(db, skip, roots, from, at);
    } else {
      var (t0, source) := LookupFile(db.tree, roots, from);
      FindVisible(db.tree, skip, roots, from);
      LookupFileFacts(db.tree, roots, from);
      if source.Unknown? {
        PathVisible(Db(t0, db.events), skip, roots, to, stat, at);
      } else {
        KnownVisible(Db(t0, db.events), skip, roots, source, to, stat, at);
      }
    }
  }

  lemma KnownVisible(db: Db, skip: seq<string>, roots: seq<Path>, source: Lookup, to: Path, stat: Stat, at: int)
    requires Valid(db.tree) && NothingBelowExcluded(db.tree, skip) && Inside(roots, to) && !Excluded(to, skip)
    requires source.Known?
    ensures NothingBelowExcluded(RenameKnown(db, roots, OwningRoot(roots, to).value, source, to, stat, at).0.tree, skip)
  {
    DestinationVisible(db.tree, skip, roots, to);
    var (u, dir, c, there) := Destination(db.tree, roots, OwningRoot(roots, to).value, to);
    FreeMoveVisible(Db(u, db.events), skip, RenamedEvent(source, stat, at), dir.value, c, there, at);
  }

  lemma FreeMoveVisible(db: Db, skip: seq<string>, renamed: Event, dir: FileId, c: ComponentId, there: Lookup, at: int)
    requires Valid(db.tree) && NothingBelowExcluded(db.tree, skip) && Visible(db.tree, skip, Some(dir))
    requires c < |db.tree.names| && db.tree.names[c] !in skip
    requires there.Known? ==> there.id < |db.tree.files|
    ensures NothingBelowExcluded(FreeMoveLog(db, renamed, dir, c, there, at).tree, skip)
  {
    var id := renamed.fileId;
    var freed := db.tree;
    if there.Known? && there.id != id {
      TombstoneVisible(db.tree, skip, there.id, at);
      TombstoneFacts(db.tree, there.id, at);
      freed := Tombstone(db.tree, there.id, at);
      VisibleExtends(db.tree, freed, skip, Some(dir));
    }
    if id < |freed.files| {
      MoveVisible(freed, skip, id, dir, c);
    }
  }

  lemma {:induction false} WalkVisible(db: Db, skip: seq<string>, rootId: FileId, root: Path, items: seq<Item>)
    requires Sound(db) && NothingBelowExcluded(db.tree, skip) && LivePath(db.tree, rootId, root)
    requires Visible(db.tree, skip, Some(rootId)) && AllPruned(items, skip)
    ensures NothingBelowExcluded(Walk(db, rootId, items).tree, skip)
  {
    if items != [] {
      var init, item := items[..|items| - 1], items[|items| - 1];
      WalkVisible(db, skip, rootId, root, init);
      WalkSound(db, rootId, root, init);
      var d := Walk(db, rootId, init);
      VisibleExtends(db.tree, d.tree, skip, Some(rootId));
      if Recordable(item) {
        ItemVisible(d.tree, skip, rootId, root, item);
      }
    }
  }

  lemma ItemVisible(t: Tree, skip: seq<string>, rootId: FileId, root: Path, item: Item)
    requires Valid(t) && NothingBelowExcluded(t, skip) && LivePath(t, rootId, root)
    requires Visible(t, skip, Some(rootId)) && Recordable(item) && Pruned(item, skip)
    ensures NothingBelowExcluded(Observe(t, rootId, item).0, skip)
  {
    var dirs, name := item.path[..|item.path| - 1], item.path[|item.path| - 1];
    if item.isDir {
      RestVisible(item.path, |item.path| - 1, skip);
    }
    DirsVisible(t, skip, Some(rootId), root, dirs);
    EnsureDirsFacts(t, Some(rootId), root, dirs);
    var (t1, dir) := EnsureDirs(t, Some(rootId), dirs);
    EntryVisible(t1, skip, dir, name, item.isDir, SizeOf(item.isDir, item.len), item.mtime);
  }

  lemma ScanVisible(db: Db, skip: seq<string>, root: Path, items: seq<Item>)
    requires Sound(db) && NothingBelowExcluded(db.tree, skip) && root != []
    requires !Excluded(root, skip) && AllPruned(items, skip)
    ensures NothingBelowExcluded(FullScan(db, root, items).tree, skip)
  {
    DirsVisible(db.tree, skip, None, [], root);
    EnteredSound(db, root);
    WalkVisible(Entered(db, root).0, skip, Entered(db, root).1, root, items);
  }

  // ----------------------------------------------------------- interrupted

  lemma {:induction false} ChainVisible(db: Db, skip: seq<string>, start: Option<FileId>, dir: Path, path: Path, d: Db)
    requires Valid(db.tree) && NothingBelowExcluded(db.tree, skip) && LiveStart(db.tree, start, dir)
    requires Visible(db.tree, skip, start) && !Excluded(path, skip) && ChainPoint(db, start, path, d)
    ensures NothingBelowExcluded(d.tree, skip)
    decreases |path|
  {
    var (t, id) := EnsureDir(db.tree, start, path[0]);
    EnsureDirFacts(db.tree, start, dir, path[0]);
    assert path[0] !in skip;
    InternVisible(db.tree, skip, path[0]);
    EntryVisible(db.tree, skip, start, path[0], true, None, None);
    if d.tree != Intern(db.tree, path[0]).0 && d.tree != t {
      RestVisible(path, 1, skip);
      ChainVisible(Db(t, db.events), skip, Some(id), dir + [path[0]], path[1..], d);
    }
  }

  lemma InternVisible(t: Tree, skip: seq<string>, name: string)
    requires Valid(t) && NothingBelowExcluded(t, skip)
    ensures NothingBelowExcluded(Intern(t, name).0, skip)
  {
    InternFacts(t, name);
    ExtendsVisible(t, Intern(t, name).0, skip, None);
  }

  lemma EnterPointVisible(db: Db, skip: seq<string>, root: Path, path: Path, d: Db)
    requires Valid(db.tree) && NothingBelowExcluded(db.tree, skip) && root <= path && !Excluded(path, skip)
    requires EnterPoint(db, root, path, d)
    ensures NothingBelowExcluded(d.tree, skip)
  {
    RestVisible(path, |root|, skip);
    assert path[..|root|] == root;
    if ChainPoint(db, None, root, d) {
      ChainVisible(db, skip, None, [], root, d);
    } else {
      var (t, rootId) := EnsureDirs(db.tree, None, root);
      DirsVisible(db.tree, skip, None, [], root);
      EnsureDirsFacts(db.tree, None, [], root);
      assert [] + root == root;
      RelativeVisible(root, path, skip);
      ChainVisible(Db(t, db.events), skip, rootId, root, RelativeDirs(root, path), d);
    }
  }

  lemma RelativeVisible(root: Path, path: Path, skip: seq<string>)
    requires root <= path && !Excluded(path, skip)
    ensures !Excluded(RelativeDirs(root, path), skip)
  {
    var dirs := RelativeDirs(root, path);
    assert forall i :: 0 <= i < |dirs| ==> dirs[i] == path[|root| + i];
  }

  lemma LookupPointVisible(db: Db, skip: seq<string>, roots: seq<Path>, path: Path, d: Db)
    requires Valid(db.tree) && NothingBelowExcluded(db.tree, skip) && !Excluded(path, skip)
    requires LookupPoint(db, roots, path, d)
    ensures NothingBelowExcluded(d.tree, skip)
  {
    var root := OwningRoot(roots, path).value;
    RestVisible(path, |root|, skip);
    assert path[..|root|] == root;
    ChainVisible(db, skip, None, [], root, d);
  }

  lemma RemovalPointVisible(db: Db, skip: seq<string>, roots: seq<Path>, path: Path, at: int, d: Db)
    requires Sound(db) && [] !in roots && NothingBelowExcluded(db.tree, skip) && !Excluded(path, skip)
    requires RemovalPoint(db, roots, path, at, d)
    ensures NothingBelowExcluded(d.tree, skip)
  {
    if LookupPoint(db, roots, path, d) {
      LookupPointVisible(db, skip, roots, path, d);
    } else {
      var (u, id) := Removed(db, roots, path);
      LookupVisible(db.tree, skip, OwningRoot(roots, path).value, path);
      LookupParentFacts(db.tree, OwningRoot(roots, path).value, path);
      TombstoneVisible(u.tree, skip, id.value, at);
    }
  }

  lemma SeenPointVisible(db: Db, skip: seq<string>, roots: seq<Path>, path: Path, stat: Stat, at: int, d: Db)
    requires Sound(db) && [] !in roots && NothingBelowExcluded(db.tree, skip) && !Excluded(path, skip)
    requires SeenPoint(db, roots, path, stat, at, d)
    ensures NothingBelowExcluded(d.tree, skip)
  {
    var root := OwningRoot(roots, path).value;
    if stat.Missing? {
      RemovalPointVisible(db, skip, roots, path, at, d);
    } else if EnterPoint(db, root, path, d) {
      EnterPointVisible(db, skip, root, path, d);
    } else if d == RecordPath(db, roots, path, stat, at).0 {
      PathVisible(db, skip, roots, path, stat, at);
    } else {
      ParentVisible(db.tree, skip, root, path);
      EnterParentFacts(db.tree, root, path);
      var (t, dir) := EnterParent(db.tree, root, path);
      InternVisible(t, skip, path[|path| - 1]);
      EntryVisible(t, skip, dir, path[|path| - 1], stat.isDir, SizeOf(stat.isDir, stat.len), stat.mtime);
    }
  }

  lemma DestinationPointVisible(db: Db, skip: seq<string>, roots: seq<Path>, to: Path, d: Db)
    requires Sound(db) && NothingBelowExcluded(db.tree, skip) && Inside(roots, to) && !Excluded(to, skip)
    requires DestinationPoint(db, roots, OwningRoot(roots, to).value, to, d)
    ensures NothingBelowExcluded(d.tree, skip)
  {
    var root := OwningRoot(roots, to).value;
    if EnterPoint(db, root, to, d) {
      EnterPointVisible(db, skip, root, to, d);
    } else {
      ParentVisible(db.tree, skip, root, to);
      EnterParentFacts(db.tree, root, to);
      var t := EnterParent(db.tree, root, to).0;
      InternVisible(t, skip, to[|to| - 1]);
      InternFacts(t, to[|to| - 1]);
      var now := Db(Intern(t, to[|to| - 1]).0, db.events);
      if d != now {
        LookupPointVisible(now, skip, roots, to, d);
      }
    }
  }

  lemma KnownPointVisible(db: Db, skip: seq<string>, roots: seq<Path>, source: Lookup, to: Path, stat: Stat, at: int, d: Db)
    requires Sound(db) && NothingBelowExcluded(db.tree, skip) && Inside(roots, to) && !Excluded(to, skip) && source.Known?
    requires KnownPoint(db, roots, OwningRoot(roots, to).value, source, to, stat, at, d)
    ensures NothingBelowExcluded(d.tree, skip)
  {
    if DestinationPoint(db, roots, OwningRoot(roots, to).value, to, d) {
      DestinationPointVisible(db, skip, roots, to, d);
    } else {
      DestinationVisible(db.tree, skip, roots, to);
      var (u, dir, c, there) := Destination(db.tree, roots, OwningRoot(roots, to).value, to);
      FreeMoveVisible(Db(u, db.events), skip, RenamedEvent(source, stat, at), dir.value, c, there, at);
      if there.Known? {
        TombstoneVisible(u, skip, there.id, at);
      }
    }
  }

  lemma RenamePointVisible(db: Db, skip: seq<string>, roots: seq<Path>, from: Path, to: Path, stat: Stat, at: int, d: Db)
    requires Sound(db) && Movable(roots, from, to) && NothingBelowExcluded(db.tree, skip)
    requires !Excluded(from, skip) && !Excluded(to, skip) && RenamePoint(db, roots, from, to, stat, at, d)
    ensures NothingBelowExcluded(d.tree, skip)
  {
    if OwningRoot(roots, to).None? {
      RemovalPointVisible(db, skip, roots, from, at, d);
    } else if LookupPoint(db, roots, from, d) {
      LookupPointVisible(db, skip, roots, from, d);
    } else {
      var (t, source) := LookupFile(db.tree, roots, from);
      FindVisible(db.tree, skip, roots, from);
      LookupFileFacts(db.tree, roots, from);
      if source.Known? {
        KnownPointVisible(Db(t, db.events), skip, roots, source, to, stat, at, d);
      } else {
        SeenPointVisible(Db(t, db.events), skip, roots, to, stat, at, d);
      }
    }
  }

  lemma ScanPointVisible(db: Db, skip: seq<string>, root: Path, items: seq<Item>, d: Db)
    requires Sound(db) && NothingBelowExcluded(db.tree, skip) && root != []
    requires !Excluded(root, skip) && AllPruned(items, skip) && ScanPoint(db, root, items, d)
    ensures NothingBelowExcluded(d.tree, skip)
  {
    if d.events == db.events && EnsurePoint(db.tree, None, root, d.tree) {
      ChainVisible(db, skip, None, [], root, d);
    } else if d != db {
      var k :| 0 <= k <= |items| && d == Walk(Entered(db, root).0, Entered(db, root).1, items[..k]);
      ScanVisible(db, skip, root, items[..k]);
    }
  }
}
