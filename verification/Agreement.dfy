// A change recorded by the watch and the same change recorded by a scan are the same.
module Agreement {
  import opened Tables
  import opened PathTree
  import opened Recording
  import opened Renaming
  import opened Scan

  lemma RecordAtAlike(t: Tree, u: Tree, dir: FileId, dirPath: Path, name: string, isDir: bool, size: Option<int>, mtime: Option<int>)
    requires Valid(t) && Valid(u) && Alike(t, u) && LivePath(t, dir, dirPath) && LivePath(u, dir, dirPath)
    requires forall id: FileId :: LivePath(t, id, dirPath + [name]) ==> t.files[id] == u.files[id]
    ensures var (t1, id, kind) := RecordAt(t, dir, name, isDir, size, mtime);
            var (u1, also, same) := RecordAt(u, dir, name, isDir, size, mtime);
            also == id && same == kind && t1.files[id] == u1.files[id]
  {
    InternFacts(t, name);
    InternFacts(u, name);
    var (t0, c) := Intern(t, name);
    var u0 := Intern(u, name).0;
    AlikePick(t0.files, u0.files, Some(dir), c);
    var live := LiveEntry(t0.files, Some(dir), c);
    if live.Some? {
      LiveEntryInterned(t, dir, dirPath, name);
      assert t.files[live.value] == u.files[live.value];
    }
    var id := Upsert(t0, Some(dir), c, isDir, size, mtime).1;
    if id < |t.files| {
      assert SamePlace(t.files[id], u.files[id]);
    }
  }

  /** The live entry found once the name is interned had the path before. */
  lemma LiveEntryInterned(t: Tree, dir: FileId, dirPath: Path, name: string)
    requires Valid(t) && LivePath(t, dir, dirPath)
    ensures var (t0, c) := Intern(t, name);
            var live := LiveEntry(t0.files, Some(dir), c);
            live.Some? ==> LivePath(t, live.value, dirPath + [name])
  {
    var (t0, c) := Intern(t, name);
    InternFacts(t, name);
    var live := LiveEntry(t0.files, Some(dir), c);
    if live.Some? {
      GrowsLivePath(t, t0, dir, dirPath);
      LiveEntryPath(t0, dir, dirPath, name, c);
      InternLivePath(t, name, live.value, dirPath + [name]);
    }
  }

  /** However its roots are nested, the watch reaches the row the scan reaches. */
  lemma SameDirectory(t: Tree, rootId: FileId, root: Path, own: Path, dirs: Path, path: Path)
    requires Valid(t) && LivePath(t, rootId, root)
    requires own != [] && own < path && path[..|path| - 1] == root + dirs
    ensures var (s, scanDir) := EnsureDirs(t, Some(rootId), dirs);
            var (w, watchDir) := EnterParent(t, own, path);
            && scanDir.Some? && watchDir == scanDir && Alike(s, w)
            && Valid(s) && Valid(w) && LivePath(s, scanDir.value, root + dirs) && LivePath(w, scanDir.value, root + dirs)
  {
    ParentDirsInside(own, path);
    EnterParentFacts(t, own, path);
    EnsureDirsFacts(t, Some(rootId), root, dirs);
    SameFromRoot(t, rootId, root, dirs);
  }

  /** Starting at the root's live row or above it, the same rows are reached. */
  lemma SameFromRoot(t: Tree, rootId: FileId, root: Path, dirs: Path)
    requires Valid(t) && LivePath(t, rootId, root)
    ensures var (s, below) := EnsureDirs(t, Some(rootId), dirs);
            var (w, whole) := EnsureDirs(t, None, root + dirs);
            whole == below && Alike(s, w)
  {
    EnsureDirsSplit(t, None, root, dirs);
    assert [] + root == root;
    EnsureDirsFinds(t, None, [], root, rootId);
    AlikeEnsureDirs(t, EnsureDirs(t, None, root).0, Some(rootId), dirs);
  }

  /** Rows at the entry itself are not touched on the way to it, by either route. */
  lemma LeafUntouched(t: Tree, rootId: FileId, root: Path, own: Path, dirs: Path, path: Path, id: FileId)
    requires Valid(t) && LivePath(t, rootId, root)
    requires own != [] && own < path && path[..|path| - 1] == root + dirs
    requires LivePath(EnsureDirs(t, Some(rootId), dirs).0, id, path)
    ensures var s := EnsureDirs(t, Some(rootId), dirs).0;
            var w := EnterParent(t, own, path).0;
            id < |w.files| && s.files[id] == w.files[id]
  {
    var s := EnsureDirs(t, Some(rootId), dirs).0;
    LivePathIsPath(s, id, path);
    if id < |t.files| {
      EnsureDirsFacts(t, Some(rootId), root, dirs);
      PathBack(t, s, id, path);
      EnsureDirsFrame(t, Some(rootId), root, dirs, id, path);
      WatchFrame(t, own, path, id);
    } else {
      NewRowOnChain(t, Some(rootId), root, dirs, id, path);
    }
  }

  lemma WatchFrame(t: Tree, own: Path, path: Path, id: FileId)
    requires Valid(t) && own != [] && own < path && HasPath(t, id, path)
    ensures var w := EnterParent(t, own, path).0;
            id < |w.files| && w.files[id] == t.files[id]
  {
    var parent := path[..|path| - 1];
    ParentDirsInside(own, path);
    EnterParentFacts(t, own, path);
    assert [] + parent == parent;
    EnsureDirsFrame(t, None, [], parent, id, path);
  }

  ghost predicate SameRow(t: Tree, u: Tree, path: Path, id: FileId) {
    LivePath(t, id, path) && LivePath(u, id, path) && t.files[id] == u.files[id]
  }

  /** The events appended for an entry: none, or the scan's, at the watch's own time. */
  function Restamped(event: Option<Event>, at: int): seq<Event> {
    if event.None? then [] else [NewEvent(event.value.fileId, event.value.kind, at, event.value.size)]
  }

  /** The same entry, seen by a scan of `root` and by the watch under any roots containing
      it: the same row with the same contents, and the same event or none. */
  lemma WatchMatchesScan(db: Db, rootId: FileId, root: Path, roots: seq<Path>, item: Item, at: int) returns (id: FileId)
    requires Sound(db) && LivePath(db.tree, rootId, root) && Recordable(item)
    requires OwningRoot(roots, root + item.path).Some?
    requires var own := OwningRoot(roots, root + item.path).value; own != [] && own < root + item.path
    ensures var (scanned, event) := Observe(db.tree, rootId, item);
            var stat := Found(item.isDir, item.len, item.mtime);
            var watched := RecordPath(db, roots, root + item.path, stat, at).0;
            SameRow(scanned, watched.tree, root + item.path, id) && watched.events == db.events + Restamped(event, at)
  {
    var dirs := item.path[..|item.path| - 1];
    var name := item.path[|item.path| - 1];
    var path := root + item.path;
    var own := OwningRoot(roots, path).value;
    assert path[..|path| - 1] == root + dirs;
    assert path == root + dirs + [name];
    SameDirectory(db.tree, rootId, root, own, dirs, path);
    var (s, dir) := EnsureDirs(db.tree, Some(rootId), dirs);
    var w := EnterParent(db.tree, own, path).0;
    forall id: FileId | LivePath(s, id, path) ensures s.files[id] == w.files[id] {
      LeafUntouched(db.tree, rootId, root, own, dirs, path, id);
    }
    id := SameLeaf(db, s, w, dir.value, root + dirs, name, item, at);
    ObserveUnfolds(db.tree, rootId, item, at);
    WatchedUnfolds(db, roots, path, item, at);
  }

  lemma ObserveUnfolds(t: Tree, rootId: FileId, item: Item, at: int)
    requires Recordable(item)
    ensures var (s, dir) := EnsureDirs(t, Some(rootId), item.path[..|item.path| - 1]);
            var size := SizeOf(item.isDir, item.len);
            var (u, id, kind) := RecordAt(s, dir.value, item.path[|item.path| - 1], item.isDir, size, item.mtime);
            && Observe(t, rootId, item).0 == u
            && Restamped(Observe(t, rootId, item).1, at) == (if kind.None? then [] else [NewEvent(id, kind.value, at, size)])
  {
  }

  lemma WatchedUnfolds(db: Db, roots: seq<Path>, path: Path, item: Item, at: int)
    requires item.Entry? && OwningRoot(roots, path).Some? && OwningRoot(roots, path).value != []
    ensures var (w, dir) := EnterParent(db.tree, OwningRoot(roots, path).value, path);
            var size := SizeOf(item.isDir, item.len);
            var (u, id, kind) := RecordAt(w, dir.value, path[|path| - 1], item.isDir, size, item.mtime);
            var after := RecordPath(db, roots, path, Found(item.isDir, item.len, item.mtime), at).0;
            && after.tree == u
            && after.events == db.events + (if kind.None? then [] else [NewEvent(id, kind.value, at, size)])
  {
    RecordPathUnfolds(db, roots, path, Found(item.isDir, item.len, item.mtime), at);
    assert db.events + [] == db.events;
  }

  lemma SameLeaf(db: Db, s: Tree, w: Tree, dir: FileId, dirPath: Path, name: string, item: Item, at: int) returns (id: FileId)
    requires Valid(s) && Valid(w) && Alike(s, w) && LivePath(s, dir, dirPath) && LivePath(w, dir, dirPath)
    requires forall id: FileId :: LivePath(s, id, dirPath + [name]) ==> s.files[id] == w.files[id]
    requires item.Entry?
    ensures var size := SizeOf(item.isDir, item.len);
            var (s1, row, kind) := RecordAt(s, dir, name, item.isDir, size, item.mtime);
            var (w1, also, same) := RecordAt(w, dir, name, item.isDir, size, item.mtime);
            && id == row == also && kind == same && SameRow(s1, w1, dirPath + [name], id)
  {
    var size := SizeOf(item.isDir, item.len);
    RecordAtAlike(s, w, dir, dirPath, name, item.isDir, size, item.mtime);
    RecordAtFacts(s, dir, dirPath, name, item.isDir, size, item.mtime);
    RecordAtFacts(w, dir, dirPath, name, item.isDir, size, item.mtime);
    id := RecordAt(s, dir, name, item.isDir, size, item.mtime).1;
  }
}
