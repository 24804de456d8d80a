// The watch operations statement by statement: each statement commits by itself, so a kill
// leaves one of the contents below, and every one of them is sound.
module Interrupted {
  import opened Tables
  import opened PathTree
  import opened Paths
  import opened Recording
  import opened Renaming

  /** After some statement that ensures a chain of directories. */
  ghost predicate ChainPoint(db: Db, start: Option<FileId>, path: Path, d: Db) {
    d.events == db.events && EnsurePoint(db.tree, start, path, d.tree)
  }

  /** ... the root's, then the directories below it. */
  ghost predicate EnterPoint(db: Db, root: Path, path: Path, d: Db)
    requires root <= path
  {
    || ChainPoint(db, None, root, d)
    || var (t, rootId) := EnsureDirs(db.tree, None, root);
       rootId.Some? && ChainPoint(Db(t, db.events), rootId, RelativeDirs(root, path), d)
  }

  ghost predicate LookupPoint(db: Db, roots: seq<Path>, path: Path, d: Db) {
    OwningRoot(roots, path).Some? && ChainPoint(db, None, OwningRoot(roots, path).value, d)
  }

  /** After the tombstone, without its event or with it. */
  predicate DeletePoint(db: Db, id: FileId, at: int, d: Db)
    requires id < |db.tree.files|
  {
    d == Db(Tombstone(db.tree, id, at), db.events) || d == Delete(db, id, at)
  }

  /** A removal's row, if it gets that far. */
  function Removed(db: Db, roots: seq<Path>, path: Path): (r: (Db, Option<FileId>))
    ensures r.1.Some? ==> r.1.value < |r.0.tree.files|
  {
    var owner := OwningRoot(roots, path);
    if owner.None? || path == [] then (db, None) else
    var c := LookupName(db.tree.names, path[|path| - 1]);
    if c.None? then (db, None) else
    var (u, parent, ok) := LookupParent(db.tree, owner.value, path);
    (Db(u, db.events), if ok && parent.Some? then LiveEntry(u.files, parent, c.value) else None)
  }

  ghost predicate RemovalPoint(db: Db, roots: seq<Path>, path: Path, at: int, d: Db) {
    || LookupPoint(db, roots, path, d)
    || var (u, id) := Removed(db, roots, path);
       id.Some? && DeletePoint(u, id.value, at, d)
  }

  /** After the entry's name is interned, or its row upserted, before any event. */
  predicate RowPoint(db: Db, dir: FileId, name: string, isDir: bool, size: Option<int>, mtime: Option<int>, d: Db) {
    d.events == db.events && (d.tree == Intern(db.tree, name).0 || d.tree == RecordAt(db.tree, dir, name, isDir, size, mtime).0)
  }

  ghost predicate SeenPoint(db: Db, roots: seq<Path>, path: Path, stat: Stat, at: int, d: Db) {
    var owner := OwningRoot(roots, path);
    owner.Some? &&
    match stat
    case Missing => RemovalPoint(db, roots, path, at, d)
    case Denied => false
    case Found(isDir, len, mtime) =>
      || EnterPoint(db, owner.value, path, d)
      || var (t, dir) := EnterParent(db.tree, owner.value, path);
         dir.Some?
         && (RowPoint(Db(t, db.events), dir.value, path[|path| - 1], isDir, SizeOf(isDir, len), mtime, d)
             || d == RecordPath(db, roots, path, stat, at).0)
  }

  ghost predicate DestinationPoint(db: Db, roots: seq<Path>, root: Path, to: Path, d: Db)
    requires root <= to
  {
    || EnterPoint(db, root, to, d)
    || var (t, dir) := EnterParent(db.tree, root, to);
       dir.Some?
       && var now := Db(Intern(t, to[|to| - 1]).0, db.events);
          d == now || LookupPoint(now, roots, to, d)
  }

  /** While the destination is freed, the row moved, the event appended. */
  predicate MovePoint(db: Db, renamed: Event, dir: FileId, c: ComponentId, there: Lookup, at: int, d: Db)
    requires there.Known? ==> there.id < |db.tree.files|
  {
    var done := FreeMoveLog(db, renamed, dir, c, there, at);
    || (there.Known? && there.id != renamed.fileId && DeletePoint(db, there.id, at, d))
    || d == Db(done.tree, done.events[..|done.events| - 1])
    || d == done
  }

  ghost predicate RenamePoint(db: Db, roots: seq<Path>, from: Path, to: Path, stat: Stat, at: int, d: Db) {
    var owner := OwningRoot(roots, to);
    if owner.None? then RemovalPoint(db, roots, from, at, d) else
    || LookupPoint(db, roots, from, d)
    || var (t, source) := LookupFile(db.tree, roots, from);
       match source
       case NoRoot => false
       case Unknown => SeenPoint(Db(t, db.events), roots, to, stat, at, d)
       case Known(_, _, _) => KnownPoint(Db(t, db.events), roots, owner.value, source, to, stat, at, d)
  }

  ghost predicate KnownPoint(db: Db, roots: seq<Path>, root: Path, source: Lookup, to: Path, stat: Stat, at: int, d: Db)
    requires source.Known? && root <= to
  {
    || DestinationPoint(db, roots, root, to, d)
    || var (u, dir, c, there) := Destination(db.tree, roots, root, to);
       dir.Some? && MovePoint(Db(u, db.events), RenamedEvent(source, stat, at), dir.value, c, there, at, d)
  }

  // ------------------------------------------------------------- soundness

  /** What every content left by a kill is: sound, and no history is lost. */
  ghost predicate Survives(db: Db, d: Db) {
    Sound(d) && db.events <= d.events && |db.tree.files| <= |d.tree.files|
  }

  lemma ChainSurvives(db: Db, start: Option<FileId>, dir: Path, path: Path, d: Db)
    requires Sound(db) && LiveStart(db.tree, start, dir) && ChainPoint(db, start, path, d)
    ensures Survives(db, d)
  {
    EnsurePointValid(db.tree, start, dir, path, d.tree);
  }

  lemma EnterSurvives(db: Db, root: Path, path: Path, d: Db)
    requires Sound(db) && root <= path && EnterPoint(db, root, path, d)
    ensures Survives(db, d)
  {
    if ChainPoint(db, None, root, d) {
      ChainSurvives(db, None, [], root, d);
    } else {
      assert [] + root == root;
      EnsureDirsFacts(db.tree, None, [], root);
      var (t, rootId) := EnsureDirs(db.tree, None, root);
      ChainSurvives(Db(t, db.events), rootId, root, RelativeDirs(root, path), d);
    }
  }

  lemma LookupSurvives(db: Db, roots: seq<Path>, path: Path, d: Db)
    requires Sound(db) && LookupPoint(db, roots, path, d)
    ensures Survives(db, d)
  {
    ChainSurvives(db, None, [], OwningRoot(roots, path).value, d);
  }

  lemma DeleteSurvives(db: Db, id: FileId, at: int, d: Db)
    requires Sound(db) && id < |db.tree.files| && DeletePoint(db, id, at, d)
    ensures Survives(db, d)
  {
    TombstoneFacts(db.tree, id, at);
    DeleteSound(db, id, at);
  }

  lemma RemovalSurvives(db: Db, roots: seq<Path>, path: Path, at: int, d: Db)
    requires Sound(db) && [] !in roots && RemovalPoint(db, roots, path, at, d)
    ensures Survives(db, d)
  {
    if LookupPoint(db, roots, path, d) {
      LookupSurvives(db, roots, path, d);
    } else {
      var (u, id) := Removed(db, roots, path);
      LookupParentFacts(db.tree, OwningRoot(roots, path).value, path);
      DeleteSurvives(u, id.value, at, d);
    }
  }

  lemma RowSurvives(db: Db, dir: FileId, dirPath: Path, name: string, isDir: bool, size: Option<int>, mtime: Option<int>, d: Db)
    requires Sound(db) && LivePath(db.tree, dir, dirPath) && RowPoint(db, dir, name, isDir, size, mtime, d)
    ensures Survives(db, d)
  {
    InternFacts(db.tree, name);
    RecordAtFacts(db.tree, dir, dirPath, name, isDir, size, mtime);
  }

  lemma SeenSurvives(db: Db, roots: seq<Path>, path: Path, stat: Stat, at: int, d: Db)
    requires Sound(db) && [] !in roots && SeenPoint(db, roots, path, stat, at, d)
    ensures Survives(db, d)
  {
    var root := OwningRoot(roots, path).value;
    if stat.Missing? {
      RemovalSurvives(db, roots, path, at, d);
    } else if EnterPoint(db, root, path, d) {
      EnterSurvives(db, root, path, d);
    } else if d == RecordPath(db, roots, path, stat, at).0 {
      RecordPathFacts(db, roots, path, stat, at);
    } else {
      EnterParentFacts(db.tree, root, path);
      var (t, dir) := EnterParent(db.tree, root, path);
      RowSurvives(Db(t, db.events), dir.value, ParentDirs(root, path), path[|path| - 1], stat.isDir,
                  SizeOf(stat.isDir, stat.len), stat.mtime, d);
    }
  }

  lemma DestinationSurvives(db: Db, roots: seq<Path>, to: Path, d: Db)
    requires Sound(db) && Inside(roots, to) && DestinationPoint(db, roots, OwningRoot(roots, to).value, to, d)
    ensures Survives(db, d)
  {
    var root := OwningRoot(roots, to).value;
    if EnterPoint(db, root, to, d) {
      EnterSurvives(db, root, to, d);
    } else {
      EnterParentFacts(db.tree, root, to);
      var t := EnterParent(db.tree, root, to).0;
      InternFacts(t, to[|to| - 1]);
      var now := Db(Intern(t, to[|to| - 1]).0, db.events);
      if d != now {
        LookupSurvives(now, roots, to, d);
      }
    }
  }

  /** Tombstoning the destination, moving the row and logging it, from a prepared tree. */
  lemma MoveSurvives(db: Db, t: Tree, renamed: Event, to: Path, dir: FileId, c: ComponentId, there: Lookup, at: int, d: Db)
    requires Sound(db) && MoveReady(t, db.tree, renamed.fileId, to, dir, c, there)
    requires EventsResolve(Db(db.tree, [renamed]))
    requires MovePoint(db, renamed, dir, c, there, at, d)
    ensures Survives(db, d)
  {
    MovedValid(t, db.tree, renamed.fileId, to, dir, c, there, at);
    var done := FreeMoveLog(db, renamed, dir, c, there, at);
    var before := done.events[..|done.events| - 1];
    assert done.tree == Moved(db.tree, renamed.fileId, dir, c, there, at);
    assert before == db.events || (there.Known? && before == db.events + [NewEvent(there.id, Deleted, at, None)]);
    assert renamed in [renamed];
    if there.Known? && there.id != renamed.fileId && DeletePoint(db, there.id, at, d) {
      DeleteSurvives(db, there.id, at, d);
    }
  }

  lemma KnownSurvives(db: Db, roots: seq<Path>, from: Path, to: Path, stat: Stat, at: int, d: Db)
    requires Sound(db) && Inside(roots, from) && Inside(roots, to) && !(from < to)
    requires LookupFile(db.tree, roots, from).1.Known?
    requires var (t, source) := LookupFile(db.tree, roots, from);
             KnownPoint(Db(t, db.events), roots, OwningRoot(roots, to).value, source, to, stat, at, d)
    ensures Survives(db, d)
  {
    LookupFileFacts(db.tree, roots, from);
    var (t, source) := LookupFile(db.tree, roots, from);
    if DestinationPoint(Db(t, db.events), roots, OwningRoot(roots, to).value, to, d) {
      DestinationSurvives(Db(t, db.events), roots, to, d);
    } else {
      var (u, _, dir, c, there) := Prepared(db.tree, roots, from, to);
      PreparedReady(db, roots, from, to, stat, at);
      MoveSurvives(Db(u, db.events), db.tree, RenamedEvent(source, stat, at), to, dir, c, there, at, d);
    }
  }

  lemma PreparedReady(db: Db, roots: seq<Path>, from: Path, to: Path, stat: Stat, at: int)
    requires Sound(db) && Inside(roots, from) && Inside(roots, to) && !(from < to)
    requires LookupFile(db.tree, roots, from).1.Known?
    ensures var (u, source, dir, c, there) := Prepared(db.tree, roots, from, to);
            && source == LookupFile(db.tree, roots, from).1
            && Survives(db, Db(u, db.events)) && MoveReady(db.tree, u, source.id, to, dir, c, there)
            && EventsResolve(Db(u, [RenamedEvent(source, stat, at)]))
  {
    PreparedSource(db.tree, roots, from, to);
    PreparedDestination(db.tree, roots, from, to);
  }

  lemma RenameSurvives(db: Db, roots: seq<Path>, from: Path, to: Path, stat: Stat, at: int, d: Db)
    requires Sound(db) && Movable(roots, from, to) && RenamePoint(db, roots, from, to, stat, at, d)
    ensures Survives(db, d)
  {
    if OwningRoot(roots, to).None? {
      RemovalSurvives(db, roots, from, at, d);
    } else if LookupPoint(db, roots, from, d) {
      LookupSurvives(db, roots, from, d);
    } else {
      LookupFileFacts(db.tree, roots, from);
      var (t, source) := LookupFile(db.tree, roots, from);
      if source.Known? {
        KnownSurvives(db, roots, from, to, stat, at, d);
      } else {
        SeenSurvives(Db(t, db.events), roots, to, stat, at, d);
      }
    }
  }
}
