// What a kill inside a watch operation costs: the contents at which a file row and its
// history part, exactly, and what becomes of the file whose event was never written.
module Unlogged {
  import opened Tables
  import opened PathTree
  import opened Paths
  import opened Recording
  import opened Renaming
  import opened Interrupted
  import opened Liveness
  import opened Scan
  import opened Convergence
  import opened EagerCommit

  // ---------------------------------------------------- where it happens

  /** The row of a new or returning file, without its creation. */
  predicate UnloggedEntry(db: Db, dir: FileId, name: string, isDir: bool, size: Option<int>, mtime: Option<int>, d: Db) {
    var (u, id, kind) := RecordAt(db.tree, dir, name, isDir, size, mtime);
    d == Db(u, db.events) && kind == Some(Created) && id < |u.files| && !u.files[id].isDir
  }

  /** The tombstone of a file, without its deletion. */
  predicate UnloggedDeletion(db: Db, id: FileId, at: int, d: Db)
    requires id < |db.tree.files|
  {
    d == Db(Tombstone(db.tree, id, at), db.events) && db.tree.files[id].Live() && !db.tree.files[id].isDir
  }

  predicate UnloggedRemoval(db: Db, roots: seq<Path>, path: Path, at: int, d: Db) {
    var (u, id) := Removed(db, roots, path);
    id.Some? && UnloggedDeletion(u, id.value, at, d)
  }

  predicate UnloggedTouch(db: Db, roots: seq<Path>, path: Path, stat: Stat, at: int, d: Db) {
    var owner := OwningRoot(roots, path);
    owner.Some? &&
    match stat
    case Missing => UnloggedRemoval(db, roots, path, at, d)
    case Denied => false
    case Found(isDir, len, mtime) =>
      var (t, dir) := EnterParent(db.tree, owner.value, path);
      dir.Some? && UnloggedEntry(Db(t, db.events), dir.value, path[|path| - 1], isDir, SizeOf(isDir, len), mtime, d)
  }

  /** The freed destination without its deletion, or a revived source without its rename. */
  predicate UnloggedMove(db: Db, renamed: Event, dir: FileId, c: ComponentId, there: Lookup, at: int, d: Db)
    requires there.Known? ==> there.id < |db.tree.files|
  {
    var id := renamed.fileId;
    var done := FreeMoveLog(db, renamed, dir, c, there, at);
    || (there.Known? && there.id != id && UnloggedDeletion(db, there.id, at, d))
    || (d == Db(done.tree, done.events[..|done.events| - 1])
        && id < |db.tree.files| && !db.tree.files[id].Live() && !db.tree.files[id].isDir)
  }

  predicate UnloggedRename(db: Db, roots: seq<Path>, from: Path, to: Path, stat: Stat, at: int, d: Db) {
    var owner := OwningRoot(roots, to);
    if owner.None? then UnloggedRemoval(db, roots, from, at, d) else
    var (t, source) := LookupFile(db.tree, roots, from);
    match source
    case NoRoot => false
    case Unknown => UnloggedTouch(Db(t, db.events), roots, to, stat, at, d)
    case Known(_, _, _) =>
      var (u, dir, c, there) := Destination(t, roots, owner.value, to);
      dir.Some? && UnloggedMove(Db(u, db.events), RenamedEvent(source, stat, at), dir.value, c, there, at, d)
  }

  // ---------------------------------------------------- exactly there

  lemma ChainAgrees(db: Db, start: Option<FileId>, dir: Path, path: Path, d: Db)
    requires Sound(db) && LogAgrees(db) && LiveStart(db.tree, start, dir)
    requires ChainPoint(db, start, path, d) && !RevivesFile(db.tree, start, path)
    ensures LogAgrees(d)
  {
    EnsurePointAgrees(db.tree, start, dir, path, d.tree, db.events);
  }

  lemma {:induction false} EnsurePointAgrees(t: Tree, start: Option<FileId>, dir: Path, path: Path, d: Tree, events: seq<Event>)
    requires Sound(Db(t, events)) && LogAgrees(Db(t, events)) && LiveStart(t, start, dir)
    requires EnsurePoint(t, start, path, d) && !RevivesFile(t, start, path)
    ensures LogAgrees(Db(d, events))
    decreases |path|
  {
    var (t1, id) := EnsureDir(t, start, path[0]);
    InternFacts(t, path[0]);
    EnsureDirFacts(t, start, dir, path[0]);
    DirUpsertAgrees(t, start, path[0], None, events);
    if d != Intern(t, path[0]).0 && d != t1 {
      EnsurePointAgrees(t1, Some(id), dir + [path[0]], path[1..], d, events);
    }
  }

  lemma InternAgrees(db: Db, name: string)
    requires Sound(db) && LogAgrees(db)
    ensures LogAgrees(Db(Intern(db.tree, name).0, db.events))
  {
    InternFacts(db.tree, name);
  }

  lemma EnterAgrees(db: Db, root: Path, path: Path, d: Db)
    requires Sound(db) && LogAgrees(db) && root <= path && root != [] && EnterPoint(db, root, path, d)
    requires !RevivesFile(db.tree, None, ParentDirs(root, path))
    ensures LogAgrees(d)
  {
    var rest := RelativeDirs(root, path);
    RevivesSplit(db.tree, None, root, rest);
    if ChainPoint(db, None, root, d) {
      ChainAgrees(db, None, [], root, d);
    } else {
      var (t, rootId) := EnsureDirs(db.tree, None, root);
      assert [] + root == root;
      EnsureDirsFacts(db.tree, None, [], root);
      EnsureDirsAgrees(db.tree, None, [], root, db.events);
      ChainAgrees(Db(t, db.events), rootId, root, rest, d);
    }
  }

  lemma DeletePointAgreesIff(db: Db, id: FileId, at: int, d: Db)
    requires Sound(db) && LogAgrees(db) && id < |db.tree.files| && DeletePoint(db, id, at, d)
    ensures LogAgrees(d) <==> !UnloggedDeletion(db, id, at, d)
  {
    assert Agrees(db.tree.files[id], db.events, id);
    if UnloggedDeletion(db, id, at, d) {
      assert !Agrees(d.tree.files[id], d.events, id);
    } else if d == Delete(db, id, at) {
      ExplainedAgrees(db.tree, Tombstone(db.tree, id, at), db.events, NewEvent(id, Deleted, at, None));
    } else {
      forall i: FileId | i < |d.tree.files| ensures Agrees(d.tree.files[i], d.events, i) {
        assert Agrees(db.tree.files[i], db.events, i);
      }
    }
  }

  /** Between a removal's statements rows and history part exactly at the tombstone of a
      file without its deletion. */
  lemma RemovalPointAgreesIff(db: Db, roots: seq<Path>, path: Path, at: int, d: Db)
    requires Sound(db) && LogAgrees(db) && [] !in roots && RemovalPoint(db, roots, path, at, d)
    requires OwningRoot(roots, path).Some? ==> !RevivesFile(db.tree, None, OwningRoot(roots, path).value)
    ensures LogAgrees(d) <==> !UnloggedRemoval(db, roots, path, at, d)
  {
    var (u, id) := Removed(db, roots, path);
    if id.Some? {
      RemovedAgrees(db, roots, path);
      if DeletePoint(u, id.value, at, d) {
        DeletePointAgreesIff(u, id.value, at, d);
      }
    }
    if LookupPoint(db, roots, path, d) {
      ChainAgrees(db, None, [], OwningRoot(roots, path).value, d);
    }
  }

  lemma RemovedAgrees(db: Db, roots: seq<Path>, path: Path)
    requires Sound(db) && LogAgrees(db) && [] !in roots && Removed(db, roots, path).1.Some?
    requires !RevivesFile(db.tree, None, OwningRoot(roots, path).value)
    ensures Sound(Removed(db, roots, path).0) && LogAgrees(Removed(db, roots, path).0)
  {
    LookupParentFacts(db.tree, OwningRoot(roots, path).value, path);
    EnsureDirsAgrees(db.tree, None, [], OwningRoot(roots, path).value, db.events);
  }

  /** An upsert without its event parts a row from its history exactly if it was to be
      logged as a creation, and the row is a file's. */
  lemma RowPointAgreesIff(db: Db, dir: FileId, dirPath: Path, name: string, isDir: bool, size: Option<int>, mtime: Option<int>, d: Db)
    requires Sound(db) && LogAgrees(db) && LivePath(db.tree, dir, dirPath) && (isDir ==> size == None)
    requires isDir ==> !RevivesAt(db.tree, Some(dir), name)
    requires RowPoint(db, dir, name, isDir, size, mtime, d)
    ensures LogAgrees(d) <==> !UnloggedEntry(db, dir, name, isDir, size, mtime, d)
  {
    var (u, id, kind) := RecordAt(db.tree, dir, name, isDir, size, mtime);
    InternAgrees(db, name);
    if isDir {
      DirUpsertAgrees(db.tree, Some(dir), name, mtime, db.events);
    } else {
      UnloggedRow(db, dir, dirPath, name, size, mtime);
    }
  }

  lemma UnloggedRow(db: Db, dir: FileId, dirPath: Path, name: string, size: Option<int>, mtime: Option<int>)
    requires Sound(db) && LogAgrees(db) && LivePath(db.tree, dir, dirPath)
    ensures var (u, id, kind) := RecordAt(db.tree, dir, name, false, size, mtime);
            id < |u.files| && (LogAgrees(Db(u, db.events)) <==> !(kind == Some(Created) && !u.files[id].isDir))
  {
    var path := dirPath + [name];
    var (u, id, kind) := RecordAt(db.tree, dir, name, false, size, mtime);
    RecordAtFacts(db.tree, dir, dirPath, name, false, size, mtime);
    RecordAtKind(db.tree, dir, dirPath, name, size, mtime);
    assert path[..|path| - 1] == dirPath;
    NewOrDead(db, u, id, dir, path);
    forall i: FileId | i < |u.files| && i != id ensures Agrees(u.files[i], db.events, i) {
      assert Agrees(db.tree.files[i], db.events, i);
    }
    if id < |db.tree.files| {
      assert SamePlace(db.tree.files[id], u.files[id]) && Agrees(db.tree.files[id], db.events, id);
    }
    assert LogAgrees(Db(u, db.events)) <==> Agrees(u.files[id], db.events, id);
  }

  /** The row of an upsert was live before exactly if its path was. */
  lemma NewOrDead(db: Db, u: Tree, id: FileId, dir: FileId, path: Path)
    requires Sound(db) && Valid(u) && Grows(db.tree, u) && LivePath(u, id, path)
    requires |u.files| <= |db.tree.files| + 1 && (|db.tree.files| < |u.files| ==> id == |db.tree.files|)
    requires path != [] && u.files[id].parent == Some(dir) && LivePath(db.tree, dir, path[..|path| - 1])
    ensures LiveAt(db.tree, path) <==> id < |db.tree.files| && db.tree.files[id].Live()
    ensures id >= |db.tree.files| ==> LastKind(db.events, id) == None
  {
    if LiveAt(db.tree, path) {
      var prior: FileId :| LivePath(db.tree, prior, path);
      GrowsLivePath(db.tree, u, prior, path);
      LivePathUnique(u, prior, id, path);
    }
    if id >= |db.tree.files| {
      NoEventsYet(db, db.events, id);
    } else if db.tree.files[id].Live() {
      assert SamePlace(db.tree.files[id], u.files[id]);
      RootedResolves(db.tree, id);
      assert LivePath(db.tree, id, path);
    }
  }

  /** Between a touch's statements rows and history part exactly where the row of a created
      file is there and its event is not. */
  lemma TouchPointAgreesIff(db: Db, roots: seq<Path>, path: Path, stat: Stat, at: int, d: Db)
    requires Sound(db) && LogAgrees(db) && [] !in roots && SeenPoint(db, roots, path, stat, at, d)
    requires var root := OwningRoot(roots, path).value;
             !RevivesFile(db.tree, None, if stat.Found? then DirChain(root, path, stat.isDir) else root)
    ensures LogAgrees(d) <==> !UnloggedTouch(db, roots, path, stat, at, d)
  {
    if stat.Missing? {
      RemovalPointAgreesIff(db, roots, path, at, d);
    } else {
      FoundPointAgreesIff(db, roots, path, stat, at, d);
    }
  }

  lemma FoundPointAgreesIff(db: Db, roots: seq<Path>, path: Path, stat: Stat, at: int, d: Db)
    requires Sound(db) && LogAgrees(db) && [] !in roots && stat.Found? && SeenPoint(db, roots, path, stat, at, d)
    requires !RevivesFile(db.tree, None, DirChain(OwningRoot(roots, path).value, path, stat.isDir))
    ensures LogAgrees(d) <==> !UnloggedTouch(db, roots, path, stat, at, d)
  {
    var root, name := OwningRoot(roots, path).value, path[|path| - 1];
    var parent, size := ParentDirs(root, path), SizeOf(stat.isDir, stat.len);
    RevivesChild(db.tree, parent, name);
    EnterParentFacts(db.tree, root, path);
    EnsureDirsAgrees(db.tree, None, [], parent, db.events);
    var (t, dir) := EnterParent(db.tree, root, path);
    if RowPoint(Db(t, db.events), dir.value, name, stat.isDir, size, stat.mtime, d) {
      RowPointAgreesIff(Db(t, db.events), dir.value, parent, name, stat.isDir, size, stat.mtime, d);
    } else if EnterPoint(db, root, path, d) {
      EnterAgrees(db, root, path, d);
    } else {
      PathAgreesIff(db, roots, path, stat, at);
    }
  }

  lemma DestinationAgrees(db: Db, roots: seq<Path>, to: Path, d: Db)
    requires Sound(db) && LogAgrees(db) && Inside(roots, to)
    requires DestinationPoint(db, roots, OwningRoot(roots, to).value, to, d)
    requires !RevivesFile(db.tree, None, to[..|to| - 1])
    ensures LogAgrees(d)
  {
    var root := OwningRoot(roots, to).value;
    InsideParent(roots, to);
    if EnterPoint(db, root, to, d) {
      EnterAgrees(db, root, to, d);
    } else {
      EnterParentFacts(db.tree, root, to);
      EnsureDirsAgrees(db.tree, None, [], to[..|to| - 1], db.events);
      var (t, dir) := EnterParent(db.tree, root, to);
      InternAgrees(Db(t, db.events), to[|to| - 1]);
      InternFacts(t, to[|to| - 1]);
      var now := Db(Intern(t, to[|to| - 1]).0, db.events);
      if d != now {
        RootEnsured(now.tree, t, roots, to, dir.value);
        ChainAgrees(now, None, [], root, d);
      }
    }
  }

  /** While a known row is moved: exactly at the freed destination without its deletion, and
      at a revived source without its rename. */
  lemma MovePointAgreesIff(db: Db, t: Tree, source: Lookup, to: Path, dir: FileId, c: ComponentId, there: Lookup, stat: Stat,
                           at: int, d: Db)
    requires Sound(db) && LogAgrees(db) && source.Known? && MoveReady(t, db.tree, source.id, to, dir, c, there)
    requires MovePoint(db, RenamedEvent(source, stat, at), dir, c, there, at, d)
    ensures LogAgrees(d) <==> !UnloggedMove(db, RenamedEvent(source, stat, at), dir, c, there, at, d)
  {
    var m, renamed := source.id, RenamedEvent(source, stat, at);
    var done := FreeMoveLog(db, renamed, dir, c, there, at);
    FreeMoveLogUnfolds(db, source, dir, c, there, stat, at);
    var before := done.events[..|done.events| - 1];
    assert before == db.events + FreedEvents(m, there, at);
    if there.Known? && there.id != m && DeletePoint(db, there.id, at, d) {
      DeletePointAgreesIff(db, there.id, at, d);
    }
    if d == Db(done.tree, before) {
      FreedAgrees(t, db.tree, m, to, dir, c, there, at, db.events);
      MovedUnlogged(Db(Freed(db.tree, m, there, at), before), db.tree, m, dir, c);
    }
    if d == done {
      MovedAgrees(t, db.tree, source, to, dir, c, there, stat, at, db.events);
    }
  }

  lemma MovedUnlogged(db: Db, was: Tree, m: FileId, dir: FileId, c: ComponentId)
    requires LogAgrees(db) && m < |db.tree.files| == |was.files| && db.tree.files[m] == was.files[m]
    ensures LogAgrees(Db(Move(db.tree, m, dir, c), db.events)) <==> !(!was.files[m].Live() && !was.files[m].isDir)
  {
    var u := Move(db.tree, m, dir, c);
    assert Agrees(db.tree.files[m], db.events, m);
    forall i: FileId | i < |u.files| && i != m ensures Agrees(u.files[i], db.events, i) {
      assert Agrees(db.tree.files[i], db.events, i);
    }
    assert LogAgrees(Db(u, db.events)) <==> Agrees(u.files[m], db.events, m);
  }

  lemma KnownPointAgreesIff(db: Db, roots: seq<Path>, from: Path, to: Path, stat: Stat, at: int, d: Db)
    requires Sound(db) && LogAgrees(db) && Inside(roots, from) && Inside(roots, to) && !(from < to)
    requires LookupFile(db.tree, roots, from).1.Known?
    requires !RevivesFile(db.tree, None, OwningRoot(roots, from).value)
    requires !RevivesFile(LookupFile(db.tree, roots, from).0, None, to[..|to| - 1])
    requires var (t, source) := LookupFile(db.tree, roots, from);
             KnownPoint(Db(t, db.events), roots, OwningRoot(roots, to).value, source, to, stat, at, d)
    ensures LogAgrees(d) <==> !UnloggedRename(db, roots, from, to, stat, at, d)
  {
    LookupFileFacts(db.tree, roots, from);
    LookupAgrees(db.tree, roots, from, db.events);
    PreparedReady(db, roots, from, to, stat, at);
    PreparedAgrees(db, roots, from, to);
    var (t, source) := LookupFile(db.tree, roots, from);
    var (u, _, dir, c, there) := Prepared(db.tree, roots, from, to);
    if MovePoint(Db(u, db.events), RenamedEvent(source, stat, at), dir, c, there, at, d) {
      MovePointAgreesIff(Db(u, db.events), db.tree, source, to, dir, c, there, stat, at, d);
    } else {
      DestinationAgrees(Db(t, db.events), roots, to, d);
      UnloggedIsMove(Db(u, db.events), RenamedEvent(source, stat, at), dir, c, there, at, d);
    }
  }

  lemma UnloggedIsMove(db: Db, renamed: Event, dir: FileId, c: ComponentId, there: Lookup, at: int, d: Db)
    requires there.Known? ==> there.id < |db.tree.files|
    ensures UnloggedMove(db, renamed, dir, c, there, at, d) ==> MovePoint(db, renamed, dir, c, there, at, d)
  {
  }

  /** Such contents are contents between the statements. */
  lemma UnloggedIsPoint(db: Db, roots: seq<Path>, path: Path, stat: Stat, at: int, d: Db)
    ensures UnloggedTouch(db, roots, path, stat, at, d) ==> SeenPoint(db, roots, path, stat, at, d)
    ensures UnloggedRemoval(db, roots, path, at, d) ==> RemovalPoint(db, roots, path, at, d)
  {
  }

  lemma UnloggedInside(db: Db, roots: seq<Path>, from: Path, to: Path, stat: Stat, at: int, d: Db)
    requires Sound(db) && Movable(roots, from, to) && OwningRoot(roots, to).Some?
    ensures var (t, source) := LookupFile(db.tree, roots, from);
            UnloggedRename(db, roots, from, to, stat, at, d) ==>
              if source.Known? then KnownPoint(Db(t, db.events), roots, OwningRoot(roots, to).value, source, to, stat, at, d)
              else SeenPoint(Db(t, db.events), roots, to, stat, at, d)
  {
    LookupFileFacts(db.tree, roots, from);
    var (t, source) := LookupFile(db.tree, roots, from);
    if source.Known? {
      PreparedReady(db, roots, from, to, stat, at);
      var (u, _, dir, c, there) := Prepared(db.tree, roots, from, to);
      UnloggedIsMove(Db(u, db.events), RenamedEvent(source, stat, at), dir, c, there, at, d);
    } else {
      UnloggedIsPoint(Db(t, db.events), roots, to, stat, at, d);
    }
  }

  lemma UnloggedIsRenamePoint(db: Db, roots: seq<Path>, from: Path, to: Path, stat: Stat, at: int, d: Db)
    requires Sound(db) && Movable(roots, from, to)
    ensures UnloggedRename(db, roots, from, to, stat, at, d) ==> RenamePoint(db, roots, from, to, stat, at, d)
  {
    if OwningRoot(roots, to).None? {
      UnloggedIsPoint(db, roots, from, stat, at, d);
    } else {
      LookupFileFacts(db.tree, roots, from);
      UnloggedInside(db, roots, from, to, stat, at, d);
    }
  }

  /** No directory the rename goes through is the tombstone of a file. */
  ghost predicate GentleRename(db: Db, roots: seq<Path>, from: Path, to: Path, stat: Stat) {
    && (OwningRoot(roots, from).Some? ==> !RevivesFile(db.tree, None, OwningRoot(roots, from).value))
    && (Inside(roots, to) ==>
          && !RevivesFile(LookupFile(db.tree, roots, from).0, None, to[..|to| - 1])
          && !RevivesFile(LookupFile(db.tree, roots, from).0, None, OwningRoot(roots, to).value)
          && (stat.Found? && stat.isDir ==> !RevivesFile(LookupFile(db.tree, roots, from).0, None, to)))
  }

  /** Between a rename's statements: exactly where the deletion of what it displaced, or its
      own event of a revived source, or the creation of an unknown source, is missing. */
  lemma RenamePointAgreesIff(db: Db, roots: seq<Path>, from: Path, to: Path, stat: Stat, at: int, d: Db)
    requires Sound(db) && LogAgrees(db) && Movable(roots, from, to) && RenamePoint(db, roots, from, to, stat, at, d)
    requires GentleRename(db, roots, from, to, stat)
    ensures LogAgrees(d) <==> !UnloggedRename(db, roots, from, to, stat, at, d)
  {
    if OwningRoot(roots, to).None? {
      RemovalPointAgreesIff(db, roots, from, at, d);
    } else {
      var (t, source) := LookupFile(db.tree, roots, from);
      LookupFileFacts(db.tree, roots, from);
      if Inside(roots, from) {
        LookupAgrees(db.tree, roots, from, db.events);
      }
      if LookupPoint(db, roots, from, d) {
        ChainAgrees(db, None, [], OwningRoot(roots, from).value, d);
      }
      UnloggedInside(db, roots, from, to, stat, at, d);
      if source.Known? {
        if KnownPoint(Db(t, db.events), roots, OwningRoot(roots, to).value, source, to, stat, at, d) {
          KnownPointAgreesIff(db, roots, from, to, stat, at, d);
        }
      } else {
        InsideParent(roots, to);
        if SeenPoint(Db(t, db.events), roots, to, stat, at, d) {
          TouchPointAgreesIff(Db(t, db.events), roots, to, stat, at, d);
        }
      }
    }
  }

  // ---------------------------------------------------- what is lost for good

  /** The content between a touch's upsert and its event. */
  function Upserted(db: Db, roots: seq<Path>, path: Path, stat: Stat): Db
    requires stat.Found? && OwningRoot(roots, path).Some? && OwningRoot(roots, path).value != []
  {
    var (t, dir) := EnterParent(db.tree, OwningRoot(roots, path).value, path);
    Db(RecordAt(t, dir.value, path[|path| - 1], stat.isDir, SizeOf(stat.isDir, stat.len), stat.mtime).0, db.events)
  }

  /** A touch killed there has the file's row up to date and, if it was to log something,
      a creation or a modification, has not; and repeating the touch logs nothing. */
  lemma KilledTouchLosesEvent(db: Db, roots: seq<Path>, path: Path, stat: Stat, at: int, again: int)
    requires Sound(db) && stat.Found? && !stat.isDir && [] !in roots && OwningRoot(roots, path).Some?
    ensures var d := Upserted(db, roots, path, stat);
            && SeenPoint(db, roots, path, stat, at, d) && Sound(d) && d.events == db.events
            && d.tree == RecordPath(db, roots, path, stat, at).0.tree
            && RecordPath(d, roots, path, stat, again).0.events == d.events
  {
    var id := UpsertedRow(db, roots, path, stat, at);
    QuietTouch(Upserted(db, roots, path, stat), roots, path, stat, again, id);
  }

  lemma UpsertedRow(db: Db, roots: seq<Path>, path: Path, stat: Stat, at: int) returns (id: FileId)
    requires Sound(db) && stat.Found? && !stat.isDir && [] !in roots && OwningRoot(roots, path).Some?
    ensures var d := Upserted(db, roots, path, stat);
            && SeenPoint(db, roots, path, stat, at, d) && Sound(d) && Grows(db.tree, d.tree) && d.events == db.events
            && d.tree == RecordPath(db, roots, path, stat, at).0.tree
            && RowIs(d.tree, id, RecordedPath(OwningRoot(roots, path).value, path), Some(stat.len), stat.mtime)
  {
    var d := Upserted(db, roots, path, stat);
    RecordPathUnfolds(db, roots, path, stat, at);
    SeenSurvives(db, roots, path, stat, at, d);
    RecordPathFacts(db, roots, path, stat, at);
    id :| RowIs(d.tree, id, RecordedPath(OwningRoot(roots, path).value, path), Some(stat.len), stat.mtime);
  }

  /** A touch of a file whose row is up to date logs nothing. */
  lemma QuietTouch(db: Db, roots: seq<Path>, path: Path, stat: Stat, at: int, id: FileId)
    requires Sound(db) && stat.Found? && !stat.isDir && OwningRoot(roots, path).Some? && OwningRoot(roots, path).value != []
    requires RowIs(db.tree, id, RecordedPath(OwningRoot(roots, path).value, path), Some(stat.len), stat.mtime)
    ensures RecordPath(db, roots, path, stat, at).0.events == db.events
  {
    var root, name := OwningRoot(roots, path).value, path[|path| - 1];
    var parent := ParentDirs(root, path);
    EnterParentFacts(db.tree, root, path);
    var (t, dir) := EnterParent(db.tree, root, path);
    LivePathIsPath(db.tree, id, parent + [name]);
    assert [] + parent == parent;
    EnsureDirsFrame(db.tree, None, [], parent, id, parent + [name]);
    GrowsLivePath(db.tree, t, id, parent + [name]);
    QuietLeaf(t, dir.value, parent, name, id, Some(stat.len), stat.mtime);
    RecordPathUnfolds(db, roots, path, stat, at);
  }

  /** A new file whose first touch is killed between its row and its event is forgotten: its
      row is live and up to date, and it has no event. */
  lemma KilledTouchForgets(db: Db, roots: seq<Path>, root: Path, disk: Disk, p: Path, at: int)
    requires Sound(db) && [] !in roots && Inside(roots, root + p) && IsFile(disk, p)
    requires forall id: FileId :: !HasPath(db.tree, id, root + p)
    ensures var stat := Found(false, disk[p].len, disk[p].mtime);
            var d := Upserted(db, roots, root + p, stat);
            SeenPoint(db, roots, root + p, stat, at, d) && Sound(d) && Forgotten(d, root, disk, p)
  {
    var path, stat := root + p, Found(false, disk[p].len, disk[p].mtime);
    var d := Upserted(db, roots, path, stat);
    InsideParent(roots, path);
    var id := UpsertedRow(db, roots, path, stat, at);
    LivePathIsPath(d.tree, id, path);
    NewPathNoEvents(db, d, id, path);
    assert ForgottenRow(d, root, disk, p, id);
  }

  lemma NewPathNoEvents(db: Db, d: Db, id: FileId, path: Path)
    requires Sound(db) && Grows(db.tree, d.tree) && d.events == db.events && HasPath(d.tree, id, path)
    requires forall prior: FileId :: !HasPath(db.tree, prior, path)
    ensures EventsOf(d.events, id) == []
  {
    if id < |db.tree.files| {
      PathBack(db.tree, d.tree, id, path);
      assert false;
    }
    NoEventsOf(db, db.events, id);
  }

  /** ... and stays forgotten over any number of scans of the tree, and touches of the file. */
  lemma KilledTouchForgottenForGood(db: Db, roots: seq<Path>, root: Path, disk: Disk, p: Path,
                                    runs: seq<Db>, listings: seq<seq<Item>>, k: nat)
    requires Sound(db) && [] !in roots && Inside(roots, root + p) && DiskOk(disk) && IsFile(disk, p) && root != []
    requires forall id: FileId :: !HasPath(db.tree, id, root + p)
    requires Scans(runs, listings, root, disk) && k < |runs|
    requires runs[0] == Upserted(db, roots, root + p, Found(false, disk[p].len, disk[p].mtime))
    ensures Forgotten(runs[k], root, disk, p)
    ensures RecordPath(runs[k], roots, root + p, Found(false, disk[p].len, disk[p].mtime), 0).0.events == runs[k].events
  {
    KilledTouchForgets(db, roots, root, disk, p, 0);
    ForgottenForGood(runs, listings, root, disk, p, k);
    var id: FileId :| ForgottenRow(runs[k], root, disk, p, id);
    InsideParent(roots, root + p);
    QuietTouch(runs[k], roots, root + p, Found(false, disk[p].len, disk[p].mtime), 0, id);
  }

  /** From the empty store: a kill of the first touch of a file can leave this, and then no
      scan and no repeated touch ever logs the file; completed, the touch logs it. */
  lemma FirstTouchForgotten(roots: seq<Path>, root: Path, disk: Disk, p: Path, at: int,
                            runs: seq<Db>, listings: seq<seq<Item>>, k: nat)
    requires [] !in roots && root != [] && Inside(roots, root + p) && DiskOk(disk) && IsFile(disk, p)
    requires Scans(runs, listings, root, disk) && k < |runs|
    requires runs[0] == Upserted(EMPTY, roots, root + p, Found(false, disk[p].len, disk[p].mtime))
    ensures var stat := Found(false, disk[p].len, disk[p].mtime);
            && SeenPoint(EMPTY, roots, root + p, stat, at, runs[0])
            && Forgotten(runs[k], root, disk, p)
            && RecordPath(EMPTY, roots, root + p, stat, at).0.events != []
            && RecordPath(runs[k], roots, root + p, stat, 0).0.events == runs[k].events
  {
    KilledTouchForgets(EMPTY, roots, root, disk, p, at);
    KilledTouchForgottenForGood(EMPTY, roots, root, disk, p, runs, listings, k);
    NewTouchLogs(EMPTY, roots, root + p, Found(false, disk[p].len, disk[p].mtime), at);
  }

  const NOTES_PATH: Path := HOME + NOTES

  lemma HomeOwns()
    ensures Inside([HOME], NOTES_PATH) && OwningRoot([HOME], NOTES_PATH) == Some(HOME)
  {
    assert HOME < NOTES_PATH;
  }

  function NotesStat(): Stat {
    Found(false, 5, Some(7))
  }

  /** The empty store after the first touch of its one file, but for the event. */
  function NotesTouched(): Db {
    HomeOwns();
    Upserted(EMPTY, [HOME], NOTES_PATH, NotesStat())
  }

  /** One file, its first touch killed: after any further scans it is live without history. */
  lemma NotesForgotten(runs: seq<Db>, listings: seq<seq<Item>>, k: nat)
    requires Scans(runs, listings, HOME, OneFile()) && k < |runs| && runs[0] == NotesTouched()
    ensures SeenPoint(EMPTY, [HOME], NOTES_PATH, NotesStat(), 100, runs[0])
    ensures Forgotten(runs[k], HOME, OneFile(), NOTES)
    ensures RecordPath(EMPTY, [HOME], NOTES_PATH, NotesStat(), 100).0.events != []
  {
    HomeOwns();
    OneFileTree();
    FirstTouchForgotten([HOME], HOME, OneFile(), NOTES, 100, runs, listings, k);
  }

  /** Completed, the first touch of a new file logs its creation; killed before that, it
      has parted the row from its history. */
  lemma NewTouchLogs(db: Db, roots: seq<Path>, path: Path, stat: Stat, at: int)
    requires Sound(db) && stat.Found? && !stat.isDir && Inside(roots, path)
    requires forall id: FileId :: !HasPath(db.tree, id, path)
    ensures RecordPath(db, roots, path, stat, at).0.events != db.events
    ensures UnloggedTouch(db, roots, path, stat, at, Upserted(db, roots, path, stat))
  {
    var root, parent, name := OwningRoot(roots, path).value, path[..|path| - 1], path[|path| - 1];
    InsideParent(roots, path);
    EnterParentFacts(db.tree, root, path);
    var (t, dir) := EnterParent(db.tree, root, path);
    assert path == parent + [name];
    forall id: FileId ensures !HasPath(t, id, path) {
      NoRowYet(db.tree, t, parent, path, id);
    }
    NewRowUnlogged(Db(t, db.events), dir.value, parent, name, Some(stat.len), stat.mtime);
    RecordPathUnfolds(db, roots, path, stat, at);
  }

  lemma NoRowYet(t: Tree, u: Tree, parent: Path, path: Path, id: FileId)
    requires Valid(t) && u == EnsureDirs(t, None, parent).0 && |path| > |parent|
    requires !HasPath(t, id, path)
    ensures !HasPath(u, id, path)
  {
    EnsureDirsFacts(t, None, [], parent);
    assert |[] + parent| < |path|;
    if HasPath(u, id, path) {
      if id < |t.files| {
        PathBack(t, u, id, path);
      } else {
        NewRowOnChain(t, None, [], parent, id, path);
      }
      assert false;
    }
  }

  lemma NewRowUnlogged(db: Db, dir: FileId, parent: Path, name: string, size: Option<int>, mtime: Option<int>)
    requires Sound(db) && LivePath(db.tree, dir, parent)
    requires forall id: FileId :: !HasPath(db.tree, id, parent + [name])
    ensures var (u, id, kind) := RecordAt(db.tree, dir, name, false, size, mtime);
            kind == Some(Created) && UnloggedEntry(db, dir, name, false, size, mtime, Db(u, db.events))
  {
    var path := parent + [name];
    RecordAtFacts(db.tree, dir, parent, name, false, size, mtime);
    RecordAtKind(db.tree, dir, parent, name, size, mtime);
    var (u, id, kind) := RecordAt(db.tree, dir, name, false, size, mtime);
    forall i: FileId ensures !LivePath(db.tree, i, path) {
      if LivePath(db.tree, i, path) {
        LivePathIsPath(db.tree, i, path);
      }
    }
    LivePathIsPath(u, id, path);
    if id < |db.tree.files| {
      PathBack(db.tree, u, id, path);
      assert false;
    }
  }
}
