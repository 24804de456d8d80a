// Recording single observations: what a touched, removed or renamed path does to the
// store, and what every one of these keeps.
module Recording {
  import opened Tables
  import opened PathTree

  /** The answer of `symlink_metadata`. */
  datatype Stat = Missing | Denied | Found(isDir: bool, len: int, mtime: Option<int>)

  /** Ok(file to extract) or StoreError::EmptyPath. */
  datatype Outcome = Recorded(id: Option<FileId>) | EmptyPath

  /** What a lookup that creates nothing finds for a path. */
  datatype Lookup = Known(id: FileId, parent: FileId, component: ComponentId) | Unknown | NoRoot

  // ------------------------------------------------------- specifications

  /** The longest watch root containing `path`. */
  function OwningRoot(roots: seq<Path>, path: Path): (r: Option<Path>)
    ensures r.Some? ==> r.value in roots && r.value <= path
    ensures r.Some? ==> forall q :: q in roots && q <= path ==> |q| <= |r.value|
    ensures r.None? ==> forall q :: q in roots ==> !(q <= path)
  {
    if roots == [] then None else
    var r := OwningRoot(roots[1..], path);
    assert roots == [roots[0]] + roots[1..];
    if roots[0] <= path && (r.None? || |roots[0]| > |r.value|) then Some(roots[0]) else r
  }

  /** `strip_prefix(root)` then `parent()`: the directories between root and entry. */
  function RelativeDirs(root: Path, path: Path): Path
    requires root <= path
  {
    if |path| == |root| then [] else path[|root|..|path| - 1]
  }

  function ParentDirs(root: Path, path: Path): Path
    requires root <= path
  {
    root + RelativeDirs(root, path)
  }

  /** Where an entry observed at `path` is recorded: at `path`, unless it is the root itself. */
  function RecordedPath(root: Path, path: Path): Path
    requires root <= path && path != []
  {
    ParentDirs(root, path) + [path[|path| - 1]]
  }

  /** The root's chain, then the directories below it. */
  function EnterParent(t: Tree, root: Path, path: Path): (r: (Tree, Option<FileId>))
    requires root <= path
    ensures root != [] <==> r.1.Some?
  {
    var (u, rootId) := EnsureDirs(t, None, root);
    if rootId.None? then (u, None) else EnsureDirs(u, rootId, RelativeDirs(root, path))
  }

  function SizeOf(isDir: bool, len: int): Option<int> {
    if isDir then None else Some(len)
  }

  /** What counts as a change: nothing for a directory, a creation where no live row was,
      a modification where size or mtime differ. */
  function KindOf(isDir: bool, previous: Option<FileRow>, size: Option<int>, mtime: Option<int>): Option<EventKind> {
    if isDir then None else
    match previous
    case None => Some(Created)
    case Some(row) => if row.size != size || row.mtime != mtime then Some(Modified) else None
  }

  /** Record an entry called `name` in directory `dir`: the tree, its row, its event. */
  function RecordAt(t: Tree, dir: FileId, name: string, isDir: bool, size: Option<int>, mtime: Option<int>)
    : (Tree, FileId, Option<EventKind>)
  {
    var (t1, c) := Intern(t, name);
    var live := LiveEntry(t1.files, Some(dir), c);
    var (t2, id) := Upsert(t1, Some(dir), c, isDir, size, mtime);
    (t2, id, KindOf(isDir, if live.Some? then Some(t1.files[live.value]) else None, size, mtime))
  }

  function NewEvent(id: FileId, kind: EventKind, at: int, size: Option<int>): Event {
    Event(id, kind, at, size, None, None)
  }

  /** `lookup_parent`, which does create the rows of the root's own chain. */
  function LookupParent(t: Tree, root: Path, path: Path): (Tree, Option<FileId>, bool)
    requires root <= path
  {
    var (u, rootId) := EnsureDirs(t, None, root);
    if rootId.None? then (u, None, false) else (u, FindDirs(u, rootId, RelativeDirs(root, path)), true)
  }

  function LookupFile(t: Tree, roots: seq<Path>, path: Path): (r: (Tree, Lookup))
    ensures r.1.Known? ==> r.1.id < |r.0.files|
  {
    var owner := OwningRoot(roots, path);
    if owner.None? || path == [] then (t, Unknown) else
    var c := LookupName(t.names, path[|path| - 1]);
    if c.None? then (t, Unknown) else
    var (u, parent, ok) := LookupParent(t, owner.value, path);
    if !ok then (u, NoRoot) else
    if parent.None? then (u, Unknown) else
    match Pick(u.files, parent, c.value)
    case None => (u, Unknown)
    case Some(id) => (u, Known(id, parent.value, c.value))
  }

  /** `UPDATE files SET deleted_at = ?2 WHERE id = ?1` */
  function Tombstone(t: Tree, id: FileId, at: int): Tree
    requires id < |t.files|
  {
    t.(files := t.files[id := t.files[id].(deletedAt := Some(at))])
  }

  function Delete(db: Db, id: FileId, at: int): Db
    requires id < |db.tree.files|
  {
    Db(Tombstone(db.tree, id, at), db.events + [NewEvent(id, Deleted, at, None)])
  }

  function RecordRemoval(db: Db, roots: seq<Path>, path: Path, at: int): (Db, Outcome) {
    var owner := OwningRoot(roots, path);
    if owner.None? || path == [] then (db, Recorded(None)) else
    var c := LookupName(db.tree.names, path[|path| - 1]);
    if c.None? then (db, Recorded(None)) else
    var (u, parent, ok) := LookupParent(db.tree, owner.value, path);
    if !ok then (Db(u, db.events), EmptyPath) else
    if parent.None? then (Db(u, db.events), Recorded(None)) else
    match LiveEntry(u.files, parent, c.value)
    case None => (Db(u, db.events), Recorded(None))
    case Some(id) => (Delete(Db(u, db.events), id, at), Recorded(None))
  }

  function RecordPath(db: Db, roots: seq<Path>, path: Path, stat: Stat, at: int): (Db, Outcome) {
    var owner := OwningRoot(roots, path);
    if owner.None? then (db, Recorded(None)) else
    match stat
    case Missing => RecordRemoval(db, roots, path, at)
    case Denied => (db, Recorded(None))
    case Found(isDir, len, mtime) =>
      var root := owner.value;
      var (t1, dir) := EnterParent(db.tree, root, path);
      if dir.None? then (Db(t1, db.events), EmptyPath) else
      var size := SizeOf(isDir, len);
      var (t2, id, kind) := RecordAt(t1, dir.value, path[|path| - 1], isDir, size, mtime);
      match kind
      case None => (Db(t2, db.events), Recorded(None))
      case Some(k) => (Db(t2, db.events + [NewEvent(id, k, at, size)]), Recorded(Some(id)))
  }

  /** Re-parent a known source row; an unknown source is an arrival, and a destination
      outside every root a departure. */
  function RecordRename(db: Db, roots: seq<Path>, from: Path, to: Path, stat: Stat, at: int): (Db, Outcome) {
    var owner := OwningRoot(roots, to);
    if owner.None? then RecordRemoval(db, roots, from, at) else
    var (t0, source) := LookupFile(db.tree, roots, from);
    match source
    case NoRoot => (Db(t0, db.events), EmptyPath)
    case Unknown => RecordPath(Db(t0, db.events), roots, to, stat, at)
    case Known(_, _, _) => RenameKnown(Db(t0, db.events), roots, owner.value, source, to, stat, at)
  }

  /** Ensure the destination's directory and look at what is there. */
  function Destination(t: Tree, roots: seq<Path>, root: Path, to: Path): (r: (Tree, Option<FileId>, ComponentId, Lookup))
    requires root <= to
    ensures root != [] <==> r.1.Some?
  {
    var (t1, dir) := EnterParent(t, root, to);
    if dir.None? then (t1, None, 0, Unknown) else
    var (t2, c) := Intern(t1, to[|to| - 1]);
    var (t3, there) := LookupFile(t2, roots, to);
    (t3, dir, c, there)
  }

  /** Free the destination, move the row there, log it. */
  function FreeMoveLog(db: Db, renamed: Event, dir: FileId, c: ComponentId, there: Lookup, at: int): Db
    requires there.Known? ==> there.id < |db.tree.files|
  {
    var id := renamed.fileId;
    var freed := if there.Known? && there.id != id then Delete(db, there.id, at) else db;
    // id is a row of every tree from the lookup on
    var tree := if id < |freed.tree.files| then Move(freed.tree, id, dir, c) else freed.tree;
    Db(tree, freed.events + [renamed])
  }

  function RenamedEvent(source: Lookup, stat: Stat, at: int): Event
    requires source.Known?
  {
    Event(source.id, Renamed, at, if stat.Found? then Some(stat.len) else None, Some(source.parent), Some(source.component))
  }

  function RenameKnown(db: Db, roots: seq<Path>, root: Path, source: Lookup, to: Path, stat: Stat, at: int): (Db, Outcome)
    requires source.Known? && root <= to
  {
    var (u, dir, c, there) := Destination(db.tree, roots, root, to);
    if dir.None? then (Db(u, db.events), EmptyPath) else
    (FreeMoveLog(Db(u, db.events), RenamedEvent(source, stat, at), dir.value, c, there, at),
     Recorded(if stat.Found? && stat.isDir then None else Some(source.id)))
  }

  // ------------------------------------------------------ the store's invariant

  /** Every reference held by an event resolves. */
  ghost predicate EventsResolve(db: Db) {
    forall e :: e in db.events ==>
      && e.fileId < |db.tree.files|
      && (e.prevParent.Some? ==> e.prevParent.value < |db.tree.files|)
      && (e.prevComponent.Some? ==> e.prevComponent.value < |db.tree.names|)
  }

  ghost predicate Sound(db: Db) {
    Valid(db.tree) && EventsResolve(db)
  }

  lemma TombstoneFacts(t: Tree, id: FileId, at: int)
    requires Valid(t) && id < |t.files|
    ensures Valid(Tombstone(t, id, at)) && Extends(t, Tombstone(t, id, at))
  {
    ExtendsRooted(t, Tombstone(t, id, at));
  }

  lemma RecordAtFacts(t: Tree, dir: FileId, dirPath: Path, name: string, isDir: bool, size: Option<int>, mtime: Option<int>)
    requires Valid(t) && LivePath(t, dir, dirPath)
    ensures var (u, id, kind) := RecordAt(t, dir, name, isDir, size, mtime);
            && Valid(u) && Grows(t, u) && LivePath(u, id, dirPath + [name])
            && u.files[id].size == size && u.files[id].mtime == mtime
            && (forall i :: 0 <= i < |t.files| && i != id ==> u.files[i] == t.files[i])
            && |u.files| <= |t.files| + 1
            && (|t.files| < |u.files| ==> id == |t.files| && u.files[id].isDir == isDir)
  {
    var (t1, c) := Intern(t, name);
    InternFacts(t, name);
    GrowsLivePath(t, t1, dir, dirPath);
    UpsertFacts(t1, Some(dir), c, isDir, size, mtime);
    UpsertPath(t1, Some(dir), dirPath, c, isDir, size, mtime);
    var (u, id) := Upsert(t1, Some(dir), c, isDir, size, mtime);
    GrowsTransitive(t, t1, u);
  }

  /** What the event of an entry says about the store it was recorded in: no event exactly
      when a live row with that size and mtime was there, Created exactly when none was. */
  lemma RecordAtKind(t: Tree, dir: FileId, dirPath: Path, name: string, size: Option<int>, mtime: Option<int>)
    requires Valid(t) && LivePath(t, dir, dirPath)
    ensures var (u, id, kind) := RecordAt(t, dir, name, false, size, mtime);
            && (kind == Some(Created) <==> !LiveAt(t, dirPath + [name]))
            && (kind == None <==> LivePath(t, id, dirPath + [name]) && t.files[id].size == size && t.files[id].mtime == mtime)
            && kind != Some(Deleted) && kind != Some(Renamed)
  {
    var path := dirPath + [name];
    var (t1, c) := Intern(t, name);
    InternFacts(t, name);
    GrowsLivePath(t, t1, dir, dirPath);
    LiveEntryPath(t1, dir, dirPath, name, c);
    forall i: FileId ensures LivePath(t, i, path) <==> LivePath(t1, i, path) {
      InternLivePath(t, name, i, path);
    }
    var live := LiveEntry(t1.files, Some(dir), c);
    if live.Some? {
      assert LivePath(t, live.value, path);
    }
  }

  /** The live entry of a live directory's location is the row with that live path. */
  lemma LiveEntryPath(t: Tree, dir: FileId, dirPath: Path, name: string, c: ComponentId)
    requires Valid(t) && LivePath(t, dir, dirPath)
    requires c < |t.names| && t.names[c] == name
    ensures forall i: FileId :: LivePath(t, i, dirPath + [name]) <==> LiveEntry(t.files, Some(dir), c) == Some(i)
  {
    var path := dirPath + [name];
    assert path[..|path| - 1] == dirPath && |path| > 1;
    forall i: FileId ensures LivePath(t, i, path) <==> LiveEntry(t.files, Some(dir), c) == Some(i) {
      if LivePath(t, i, path) {
        LivePathUnique(t, t.files[i].parent.value, dir, dirPath);
        LookupNameAt(t.names, t.files[i].component);
        LookupNameAt(t.names, c);
        PickLive(t.files, Some(dir), c, i);
      }
    }
  }

  /** Interning a name moves no row. */
  lemma {:induction false} InternLivePath(t: Tree, name: string, id: FileId, path: Path)
    requires Valid(t)
    ensures LivePath(t, id, path) <==> LivePath(Intern(t, name).0, id, path)
    decreases |path|
  {
    if path != [] && id < |t.files| {
      RootedResolves(t, id);
      if t.files[id].parent.Some? {
        InternLivePath(t, name, t.files[id].parent.value, path[..|path| - 1]);
      }
    }
  }

  // ------------------------------------------------------------- lookups

  /** Entering through the root is ensuring the whole chain: any root containing the path
      leads to the same directory row. */
  lemma EnterParentFacts(t: Tree, root: Path, path: Path)
    requires Valid(t) && root <= path && root != []
    ensures var (u, dir) := EnterParent(t, root, path);
            && (u, dir) == EnsureDirs(t, None, ParentDirs(root, path))
            && Valid(u) && Grows(t, u) && dir.Some? && LivePath(u, dir.value, ParentDirs(root, path))
  {
    EnsureDirsSplit(t, None, root, RelativeDirs(root, path));
    EnsureDirsFacts(t, None, [], ParentDirs(root, path));
    assert [] + ParentDirs(root, path) == ParentDirs(root, path);
  }

  lemma LookupParentFacts(t: Tree, root: Path, path: Path)
    requires Valid(t) && root <= path && root != []
    ensures var (u, parent, ok) := LookupParent(t, root, path);
            && Valid(u) && Grows(t, u) && ok
            && (parent.Some? ==> parent.value < |u.files| && HasPath(u, parent.value, root + RelativeDirs(root, path)))
            && parent == FindDirs(u, None, root + RelativeDirs(root, path))
  {
    var (u, rootId) := EnsureDirs(t, None, root);
    EnsureDirsFacts(t, None, [], root);
    assert [] + root == root;
    LivePathIsPath(u, rootId.value, root);
    var rest := RelativeDirs(root, path);
    FindDirsLive(u, None, [], root, rootId.value);
    FindDirsSplit(u, None, root, rest);
    if rest == [] {
      assert root + rest == root;
    } else if FindDirs(u, rootId, rest).Some? {
      FindDirsPath(u, rootId, root, rest);
    }
  }

  /** A row found for a path has that path, and is the row any ensured chain goes through. */
  lemma LookupFileFacts(t: Tree, roots: seq<Path>, path: Path)
    requires Valid(t)
    requires OwningRoot(roots, path).Some? ==> OwningRoot(roots, path).value != []
    ensures var (u, found) := LookupFile(t, roots, path);
            && Valid(u) && Grows(t, u)
            && !found.NoRoot?
            && (found.Known? ==>
                  var where := RecordedPath(OwningRoot(roots, path).value, path);
                  && path != []
                  && HasPath(u, found.id, where)
                  && HasPath(u, found.parent, where[..|where| - 1])
                  && u.files[found.id].At(Some(found.parent), found.component)
                  && found.component < |u.names| && u.names[found.component] == path[|path| - 1]
                  && FindDirs(u, None, where) == Some(found.id))
  {
    var (u, found) := LookupFile(t, roots, path);
    var owner := OwningRoot(roots, path);
    if owner.Some? && path != [] && LookupName(t.names, path[|path| - 1]).Some? {
      var c := LookupName(t.names, path[|path| - 1]).value;
      LookupParentFacts(t, owner.value, path);
      if found.Known? {
        var parent := ParentDirs(owner.value, path);
        var where := RecordedPath(owner.value, path);
        assert where[..|where| - 1] == parent;
        RootedResolves(u, found.id);
        LookupNameAt(u.names, c);
        FindDirsSplit(u, None, parent, [path[|path| - 1]]);
        assert [path[|path| - 1]][1..] == [];
        assert FindDirs(u, Some(found.id), []) == Some(found.id);
      }
    }
  }

  // ------------------------------------------- what each observation keeps

  lemma RemovalSound(db: Db, roots: seq<Path>, path: Path, at: int)
    requires Sound(db) && [] !in roots
    ensures var (after, outcome) := RecordRemoval(db, roots, path, at);
            Sound(after) && Extends(db.tree, after.tree) && outcome == Recorded(None)
  {
    var owner := OwningRoot(roots, path);
    if owner.Some? && path != [] && LookupName(db.tree.names, path[|path| - 1]).Some? {
      var c := LookupName(db.tree.names, path[|path| - 1]).value;
      LookupParentFacts(db.tree, owner.value, path);
      var (u, parent, ok) := LookupParent(db.tree, owner.value, path);
      if parent.Some? && LiveEntry(u.files, parent, c).Some? {
        DeleteSound(Db(u, db.events), LiveEntry(u.files, parent, c).value, at);
        ExtendsTransitive(db.tree, u, Tombstone(u, LiveEntry(u.files, parent, c).value, at));
      }
    }
  }

  lemma DeleteSound(db: Db, id: FileId, at: int)
    requires Sound(db) && id < |db.tree.files|
    ensures Sound(Delete(db, id, at)) && Extends(db.tree, Delete(db, id, at).tree)
  {
    TombstoneFacts(db.tree, id, at);
  }

  lemma ExtendsTransitive(t: Tree, u: Tree, v: Tree)
    requires Extends(t, u) && Extends(u, v)
    ensures Extends(t, v)
  {
    forall i | 0 <= i < |t.files| ensures SamePlace(t.files[i], v.files[i]) {
      assert SamePlace(t.files[i], u.files[i]) && SamePlace(u.files[i], v.files[i]);
    }
  }

  lemma PathSound(db: Db, roots: seq<Path>, path: Path, stat: Stat, at: int)
    requires Sound(db) && [] !in roots
    ensures Sound(RecordPath(db, roots, path, stat, at).0)
    ensures Extends(db.tree, RecordPath(db, roots, path, stat, at).0.tree)
    ensures RecordPath(db, roots, path, stat, at).1.Recorded?
  {
    var owner := OwningRoot(roots, path);
    if owner.Some? {
      RemovalSound(db, roots, path, at);
      if stat.Found? {
        RecordPathFacts(db, roots, path, stat, at);
      }
    }
  }

  /** A path seen on disk ends up with a live row of that path, size and mtime; an event
      about that row is appended exactly when it is reported for extraction. */
  lemma RecordPathFacts(db: Db, roots: seq<Path>, path: Path, stat: Stat, at: int)
    requires Sound(db) && stat.Found?
    requires OwningRoot(roots, path).Some? && OwningRoot(roots, path).value != []
    ensures var (after, outcome) := RecordPath(db, roots, path, stat, at);
            var where := RecordedPath(OwningRoot(roots, path).value, path);
            Sound(after) && Grows(db.tree, after.tree) && RecordedAs(db, after, outcome, where, stat, at)
  {
    var root := OwningRoot(roots, path).value;
    EnterParentFacts(db.tree, root, path);
    var (t1, dir) := EnterParent(db.tree, root, path);
    EntryRecorded(Db(t1, db.events), dir.value, ParentDirs(root, path), path[|path| - 1], stat, at);
    RecordPathUnfolds(db, roots, path, stat, at);
    GrowsTransitive(db.tree, t1, RecordPath(db, roots, path, stat, at).0.tree);
  }

  /** The store after an entry is recorded in `t` and its event, if any, appended. */
  function Logged(db: Db, t: Tree, id: FileId, kind: Option<EventKind>, at: int, size: Option<int>): Db {
    Db(t, if kind.Some? then db.events + [NewEvent(id, kind.value, at, size)] else db.events)
  }

  lemma RecordPathUnfolds(db: Db, roots: seq<Path>, path: Path, stat: Stat, at: int)
    requires stat.Found? && OwningRoot(roots, path).Some? && OwningRoot(roots, path).value != []
    ensures var (t1, dir) := EnterParent(db.tree, OwningRoot(roots, path).value, path);
            var size := SizeOf(stat.isDir, stat.len);
            var (t2, id, kind) := RecordAt(t1, dir.value, path[|path| - 1], stat.isDir, size, stat.mtime);
            RecordPath(db, roots, path, stat, at)
            == (Logged(db, t2, id, kind, at, size), Recorded(if kind.Some? then Some(id) else None))
  {
  }

  lemma EntryRecorded(db: Db, dir: FileId, parent: Path, name: string, stat: Stat, at: int)
    requires Sound(db) && stat.Found? && LivePath(db.tree, dir, parent)
    ensures var size := SizeOf(stat.isDir, stat.len);
            var (t, id, kind) := RecordAt(db.tree, dir, name, stat.isDir, size, stat.mtime);
            var after := Logged(db, t, id, kind, at, size);
            && Sound(after) && Grows(db.tree, t)
            && RecordedAs(db, after, Recorded(if kind.Some? then Some(id) else None), parent + [name], stat, at)
  {
    var size := SizeOf(stat.isDir, stat.len);
    RecordAtFacts(db.tree, dir, parent, name, stat.isDir, size, stat.mtime);
    var (t, id, kind) := RecordAt(db.tree, dir, name, stat.isDir, size, stat.mtime);
    assert RowIs(t, id, parent + [name], size, stat.mtime);
  }

  ghost predicate RecordedAs(db: Db, after: Db, outcome: Outcome, where: Path, stat: Stat, at: int)
    requires stat.Found?
  {
    var size := SizeOf(stat.isDir, stat.len);
    match outcome
    case EmptyPath => false
    case Recorded(None) =>
      after.events == db.events && exists id: FileId :: RowIs(after.tree, id, where, size, stat.mtime)
    case Recorded(Some(id)) =>
      && !stat.isDir && RowIs(after.tree, id, where, size, stat.mtime)
      && exists kind :: after.events == db.events + [NewEvent(id, kind, at, size)]
  }

  /** Row `id` has the live path `path` and holds `size` and `mtime`. */
  ghost predicate RowIs(t: Tree, id: FileId, path: Path, size: Option<int>, mtime: Option<int>) {
    LivePath(t, id, path) && t.files[id].size == size && t.files[id].mtime == mtime
  }

  /** An observation is recorded at its own path exactly when it is strictly inside its
      watch root; an event on the root itself lands on a row one level too deep. */
  lemma RecordedWhereObserved(root: Path, path: Path)
    requires root <= path && path != []
    ensures RecordedPath(root, path) == path <==> root < path
    ensures root == path ==> RecordedPath(root, path) == root + [root[|root| - 1]]
  {
    if root < path {
      assert path == root + path[|root|..|path| - 1] + [path[|path| - 1]];
    } else {
      assert |RecordedPath(root, path)| == |path| + 1;
    }
  }
}
