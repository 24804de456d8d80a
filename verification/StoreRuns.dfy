// Whole runs of the observer: scans, touches, removals and renames, each completed or
// killed at any statement, in any order and under changing roots, from an empty store.
module StoreRuns {
  import opened Tables
  import opened PathTree
  import opened Paths
  import opened Recording
  import opened Renaming
  import opened Interrupted
  import opened Liveness
  import opened Unlogged
  import opened EagerCommit
  import opened Scan

  datatype Op =
    | Touch(roots: seq<Path>, path: Path, stat: Stat, at: int)
    | Remove(roots: seq<Path>, path: Path, at: int)
    | Rename(roots: seq<Path>, from: Path, to: Path, stat: Stat, at: int)
    | Walked(root: Path, items: seq<Item>)

  /** No root is the filesystem root; renamed paths are not roots themselves, and nothing
      is renamed to a place below itself. */
  ghost predicate Possible(op: Op) {
    match op
    case Touch(roots, _, _, _) => [] !in roots
    case Remove(roots, _, _) => [] !in roots
    case Rename(roots, from, to, _, _) => Movable(roots, from, to)
    case Walked(root, _) => root != []
  }

  /** `after` is what `op` leaves; for a scan, complete or killed anywhere. */
  ghost predicate Completes(db: Db, op: Op, after: Db)
    requires Possible(op)
  {
    match op
    case Touch(roots, path, stat, at) => after == RecordPath(db, roots, path, stat, at).0
    case Remove(roots, path, at) => after == RecordRemoval(db, roots, path, at).0
    case Rename(roots, from, to, stat, at) => after == RecordRename(db, roots, from, to, stat, at).0
    case Walked(root, items) => ScanPoint(db, root, items, after)
  }

  /** ... or what a kill between two of its statements leaves. */
  ghost predicate Leaves(db: Db, op: Op, after: Db)
    requires Possible(op)
  {
    || after == db || Completes(db, op, after)
    || match op
       case Touch(roots, path, stat, at) => SeenPoint(db, roots, path, stat, at, after)
       case Remove(roots, path, at) => RemovalPoint(db, roots, path, at, after)
       case Rename(roots, from, to, stat, at) => RenamePoint(db, roots, from, to, stat, at, after)
       case Walked(_, _) => false
  }

  ghost predicate Run(stores: seq<Db>, ops: seq<Op>) {
    && |stores| == |ops| + 1 && stores[0] == EMPTY
    && forall k :: 0 <= k < |ops| ==> Possible(ops[k]) && Leaves(stores[k], ops[k], stores[k + 1])
  }

  lemma RemovalLog(db: Db, roots: seq<Path>, path: Path, at: int)
    ensures db.events <= RecordRemoval(db, roots, path, at).0.events
  {
  }

  lemma PathLog(db: Db, roots: seq<Path>, path: Path, stat: Stat, at: int)
    ensures db.events <= RecordPath(db, roots, path, stat, at).0.events
  {
    RemovalLog(db, roots, path, at);
  }

  lemma RenameGrows(db: Db, roots: seq<Path>, from: Path, to: Path, stat: Stat, at: int)
    requires Sound(db) && Possible(Rename(roots, from, to, stat, at))
    ensures var after := RecordRename(db, roots, from, to, stat, at).0;
            db.events <= after.events && |db.tree.files| <= |after.tree.files|
  {
    if OwningRoot(roots, to).None? {
      RemovalLog(db, roots, from, at);
      RemovalSound(db, roots, from, at);
    } else {
      LookupFileFacts(db.tree, roots, from);
      var (t0, source) := LookupFile(db.tree, roots, from);
      if source.Known? {
        KnownRenameGrows(db, roots, from, to, stat, at);
      } else {
        PathLog(Db(t0, db.events), roots, to, stat, at);
        PathSound(Db(t0, db.events), roots, to, stat, at);
      }
    }
  }

  lemma KnownRenameGrows(db: Db, roots: seq<Path>, from: Path, to: Path, stat: Stat, at: int)
    requires Sound(db) && Inside(roots, from) && Inside(roots, to) && LookupFile(db.tree, roots, from).1.Known?
    ensures var after := RecordRename(db, roots, from, to, stat, at).0;
            db.events <= after.events && |db.tree.files| <= |after.tree.files|
  {
    RenameUnfolds(db, roots, from, to, stat, at);
    PreparedSource(db.tree, roots, from, to);
  }

  /** One operation keeps the store sound and only adds to rows and events, killed or not. */
  lemma LeavesSound(db: Db, op: Op, after: Db)
    requires Sound(db) && Possible(op) && Leaves(db, op, after)
    ensures Sound(after) && db.events <= after.events && |db.tree.files| <= |after.tree.files|
  {
    if Completes(db, op, after) {
      CompletesSound(db, op, after);
    } else if after != db {
      match op
      case Touch(roots, path, stat, at) => SeenSurvives(db, roots, path, stat, at, after);
      case Remove(roots, path, at) => RemovalSurvives(db, roots, path, at, after);
      case Rename(roots, from, to, stat, at) => RenameSurvives(db, roots, from, to, stat, at, after);
    }
  }

  lemma CompletesSound(db: Db, op: Op, after: Db)
    requires Sound(db) && Possible(op) && Completes(db, op, after)
    ensures Sound(after) && db.events <= after.events && |db.tree.files| <= |after.tree.files|
  {
    match op
    case Touch(roots, path, stat, at) =>
      PathSound(db, roots, path, stat, at);
      PathLog(db, roots, path, stat, at);
    case Remove(roots, path, at) =>
      RemovalSound(db, roots, path, at);
      RemovalLog(db, roots, path, at);
    case Rename(roots, from, to, stat, at) =>
      RenameSound(db, roots, from, to, stat, at);
      RenameGrows(db, roots, from, to, stat, at);
    case Walked(root, items) =>
      KilledScanSound(db, root, items, after);
  }

  /** Over every run: no dangling reference, no cycle, at most one live row per location,
      every event's row present; and history is append-only. */
  lemma {:induction false} RunSound(stores: seq<Db>, ops: seq<Op>, j: nat, k: nat)
    requires Run(stores, ops) && j <= k < |stores|
    ensures Sound(stores[k])
    ensures stores[j].events <= stores[k].events && |stores[j].tree.files| <= |stores[k].tree.files|
    decreases k
  {
    if k > 0 {
      RunSound(stores, ops, if j < k then j else k - 1, k - 1);
      LeavesSound(stores[k - 1], ops[k - 1], stores[k]);
    }
  }

  /** ... so two rows whose whole chain is live never share a path. */
  lemma RunPathsUnique(stores: seq<Db>, ops: seq<Op>, k: nat, a: FileId, b: FileId, path: Path)
    requires Run(stores, ops) && k < |stores|
    requires LivePath(stores[k].tree, a, path) && LivePath(stores[k].tree, b, path)
    ensures a == b
  {
    RunSound(stores, ops, 0, k);
    LivePathUnique(stores[k].tree, a, b, path);
  }

  // -------------------------------------------------- rows against history

  /** No directory the entry goes through, itself included if it is one, is a tombstoned file. */
  predicate KindlyItem(t: Tree, rootId: FileId, item: Item) {
    Recordable(item) ==> !RevivesFile(t, Some(rootId), if item.isDir then item.path else item.path[..|item.path| - 1])
  }

  ghost predicate KindlyWalk(db: Db, rootId: FileId, items: seq<Item>) {
    forall k :: 0 <= k < |items| ==> KindlyItem(Walk(db, rootId, items[..k]).tree, rootId, items[k])
  }

  /** The operation never asks for a directory where a deleted file's row is. */
  ghost predicate Kindly(db: Db, op: Op)
    requires Possible(op)
  {
    match op
    case Touch(roots, path, stat, _) =>
      var owner := OwningRoot(roots, path);
      owner.Some? ==>
        if stat.Found? then !RevivesFile(db.tree, None, DirChain(owner.value, path, stat.isDir))
        else !RevivesFile(db.tree, None, owner.value)
    case Remove(roots, path, _) =>
      OwningRoot(roots, path).Some? ==> !RevivesFile(db.tree, None, OwningRoot(roots, path).value)
    case Rename(roots, from, to, stat, at) => GentleRename(db, roots, from, to, stat)
    case Walked(root, items) =>
      && !RevivesFile(db.tree, None, root)
      && KindlyWalk(Entered(db, root).0, Entered(db, root).1, items)
  }

  lemma StepAgrees(db: Db, rootId: FileId, root: Path, item: Item)
    requires Sound(db) && LogAgrees(db) && LivePath(db.tree, rootId, root) && KindlyItem(db.tree, rootId, item)
    ensures LogAgrees(Step(db, rootId, item))
  {
    if Recordable(item) {
      var dirs := item.path[..|item.path| - 1];
      var name := item.path[|item.path| - 1];
      assert item.path == dirs + [name];
      RevivesSplit(db.tree, Some(rootId), dirs, [name]);
      EnsureDirsAgrees(db.tree, Some(rootId), root, dirs, db.events);
      EnsureDirsFacts(db.tree, Some(rootId), root, dirs);
      var (t1, dir) := EnsureDirs(db.tree, Some(rootId), dirs);
      if item.isDir {
        DirUpsertAgrees(t1, dir, name, item.mtime, db.events);
      } else {
        LeafAgrees(t1, dir.value, root + dirs, name, SizeOf(false, item.len), item.mtime, item.at, db.events);
      }
    }
  }

  lemma {:induction false} WalkAgrees(db: Db, rootId: FileId, root: Path, items: seq<Item>)
    requires Sound(db) && LogAgrees(db) && LivePath(db.tree, rootId, root) && KindlyWalk(db, rootId, items)
    ensures LogAgrees(Walk(db, rootId, items))
  {
    if items != [] {
      var init := items[..|items| - 1];
      forall k | 0 <= k < |init| ensures KindlyItem(Walk(db, rootId, init[..k]).tree, rootId, init[k]) {
        assert init[..k] == items[..k];
        assert KindlyItem(Walk(db, rootId, items[..k]).tree, rootId, items[k]);
      }
      WalkAgrees(db, rootId, root, init);
      WalkSound(db, rootId, root, init);
      StepAgrees(Walk(db, rootId, init), rootId, root, items[|items| - 1]);
    }
  }

  lemma ScanAgrees(db: Db, root: Path, items: seq<Item>, after: Db)
    requires Sound(db) && LogAgrees(db) && root != [] && ScanPoint(db, root, items, after)
    requires Kindly(db, Walked(root, items))
    ensures LogAgrees(after)
  {
    var (entered, rootId) := Entered(db, root);
    EnsureDirsAgrees(db.tree, None, [], root, db.events);
    EnteredSound(db, root);
    if after.events == db.events && EnsurePoint(db.tree, None, root, after.tree) {
      EnsurePointAgrees(db.tree, None, [], root, after.tree, db.events);
    } else if after != db {
      var k :| 0 <= k <= |items| && after == Walk(entered, rootId, items[..k]);
      forall j | 0 <= j < k ensures KindlyItem(Walk(entered, rootId, items[..k][..j]).tree, rootId, items[..k][j]) {
        assert items[..k][..j] == items[..j];
        assert KindlyItem(Walk(entered, rootId, items[..j]).tree, rootId, items[j]);
      }
      WalkAgrees(entered, rootId, root, items[..k]);
    }
  }

  lemma TouchAgrees(db: Db, roots: seq<Path>, path: Path, stat: Stat, at: int)
    requires Sound(db) && LogAgrees(db) && [] !in roots
    requires Kindly(db, Touch(roots, path, stat, at))
    ensures LogAgrees(RecordPath(db, roots, path, stat, at).0)
  {
    if OwningRoot(roots, path).Some? {
      if stat.Found? {
        PathAgreesIff(db, roots, path, stat, at);
      } else {
        RemovalAgrees(db, roots, path, at);
      }
    }
  }

  lemma RenamedAgrees(db: Db, roots: seq<Path>, from: Path, to: Path, stat: Stat, at: int)
    requires Sound(db) && LogAgrees(db)
    requires Possible(Rename(roots, from, to, stat, at)) && Kindly(db, Rename(roots, from, to, stat, at))
    ensures LogAgrees(RecordRename(db, roots, from, to, stat, at).0)
  {
    if OwningRoot(roots, to).None? {
      RemovalAgrees(db, roots, from, at);
    } else {
      var (t0, source) := LookupFile(db.tree, roots, from);
      LookupFileFacts(db.tree, roots, from);
      if source.Known? {
        RenameAgrees(db, roots, from, to, stat, at);
      } else {
        if Inside(roots, from) {
          LookupAgrees(db.tree, roots, from, db.events);
        }
        InsideParent(roots, to);
        TouchAgrees(Db(t0, db.events), roots, to, stat, at);
      }
    }
  }

  /** The operation was killed with a file row ahead of its history. */
  ghost predicate Loses(db: Db, op: Op, after: Db) {
    match op
    case Touch(roots, path, stat, at) => UnloggedTouch(db, roots, path, stat, at, after)
    case Remove(roots, path, at) => UnloggedRemoval(db, roots, path, at, after)
    case Rename(roots, from, to, stat, at) => UnloggedRename(db, roots, from, to, stat, at, after)
    case Walked(_, _) => false
  }

  lemma CompletesAgrees(db: Db, op: Op, after: Db)
    requires Sound(db) && LogAgrees(db) && Possible(op) && Completes(db, op, after) && Kindly(db, op)
    ensures LogAgrees(after)
  {
    match op
    case Touch(roots, path, stat, at) => TouchAgrees(db, roots, path, stat, at);
    case Remove(roots, path, at) => RemovalAgrees(db, roots, path, at);
    case Rename(roots, from, to, stat, at) => RenamedAgrees(db, roots, from, to, stat, at);
    case Walked(root, items) => ScanAgrees(db, root, items, after);
  }

  /** One operation, complete or killed anywhere, keeps rows and history in agreement
      exactly when it was not killed there; a scan always does. */
  lemma LeavesAgreesIff(db: Db, op: Op, after: Db)
    requires Sound(db) && LogAgrees(db) && Possible(op) && Leaves(db, op, after) && Kindly(db, op)
    ensures LogAgrees(after) <==> !Loses(db, op, after)
  {
    if Completes(db, op, after) {
      CompletesAgrees(db, op, after);
    }
    match op
    case Touch(roots, path, stat, at) =>
      UnloggedIsPoint(db, roots, path, stat, at, after);
      if SeenPoint(db, roots, path, stat, at, after) {
        TouchPointAgreesIff(db, roots, path, stat, at, after);
      }
    case Remove(roots, path, at) =>
      UnloggedIsPoint(db, roots, path, Missing, at, after);
      if RemovalPoint(db, roots, path, at, after) {
        RemovalPointAgreesIff(db, roots, path, at, after);
      }
    case Rename(roots, from, to, stat, at) =>
      UnloggedIsRenamePoint(db, roots, from, to, stat, at, after);
      if RenamePoint(db, roots, from, to, stat, at, after) {
        RenamePointAgreesIff(db, roots, from, to, stat, at, after);
      }
    case Walked(_, _) =>
  }

  /** Over every run, killed anywhere, whose directories never take the place of a deleted
      file: as long as no operation was killed with a file row ahead of its history, a file
      row is live exactly when it has an event and its last event is not a deletion; and the
      first operation that was so killed breaks that. */
  lemma {:induction false} RunAgrees(stores: seq<Db>, ops: seq<Op>, k: nat)
    requires Run(stores, ops) && k < |stores|
    requires forall j :: 0 <= j < |ops| ==> Kindly(stores[j], ops[j])
    requires forall j :: 0 <= j < k ==> !Loses(stores[j], ops[j], stores[j + 1])
    ensures LogAgrees(stores[k])
    ensures k < |ops| ==> (LogAgrees(stores[k + 1]) <==> !Loses(stores[k], ops[k], stores[k + 1]))
  {
    if k > 0 {
      RunAgrees(stores, ops, k - 1);
    }
    if k < |ops| {
      RunSound(stores, ops, 0, k);
      assert Kindly(stores[k], ops[k]) && Leaves(stores[k], ops[k], stores[k + 1]);
      LeavesAgreesIff(stores[k], ops[k], stores[k + 1]);
    }
  }

  /** A run of one operation: the first touch of a file, killed between its row and its
      event, ends with rows and history apart. */
  lemma KilledTouchRun()
    ensures var ops := [Touch([HOME], NOTES_PATH, NotesStat(), 100)];
            Run([EMPTY, NotesTouched()], ops) && Loses(EMPTY, ops[0], NotesTouched()) && !LogAgrees(NotesTouched())
  {
    HomeOwns();
    FirstTouchRun([HOME], NOTES_PATH, NotesStat(), 100);
  }

  lemma FirstTouchRun(roots: seq<Path>, path: Path, stat: Stat, at: int)
    requires [] !in roots && Inside(roots, path) && stat.Found? && !stat.isDir
    ensures var ops := [Touch(roots, path, stat, at)];
            var d := Upserted(EMPTY, roots, path, stat);
            Run([EMPTY, d], ops) && Loses(EMPTY, ops[0], d) && !LogAgrees(d)
  {
    var op, d := Touch(roots, path, stat, at), Upserted(EMPTY, roots, path, stat);
    NewTouchLogs(EMPTY, roots, path, stat, at);
    UnloggedIsPoint(EMPTY, roots, path, stat, at, d);
    AllLiveRevivesNothing(EMPTY.tree, None, [], DirChain(OwningRoot(roots, path).value, path, false));
    LeavesAgreesIff(EMPTY, op, d);
  }

  /** Where every row is live no chain revives anything. */
  lemma {:induction false} AllLiveRevivesNothing(t: Tree, start: Option<FileId>, dir: Path, path: Path)
    requires Valid(t) && LiveStart(t, start, dir)
    requires forall i :: 0 <= i < |t.files| ==> t.files[i].Live()
    ensures !RevivesFile(t, start, path)
    decreases |path|
  {
    if path != [] {
      var (u, id) := EnsureDir(t, start, path[0]);
      EnsureDirFacts(t, start, dir, path[0]);
      InternFacts(t, path[0]);
      AllLiveRevivesNothing(u, Some(id), dir + [path[0]], path[1..]);
    }
  }
}
