// The link between rows and history: a file row is live exactly when it has an event
// and its last event is not a deletion.
module Liveness {
  import opened Tables
  import opened PathTree
  import opened Recording
  import opened Renaming

  /** The kind of the last event of a row. */
  function LastKind(events: seq<Event>, id: FileId): Option<EventKind> {
    if events == [] then None
    else if events[|events| - 1].fileId == id then Some(events[|events| - 1].kind)
    else LastKind(events[..|events| - 1], id)
  }

  predicate Present(events: seq<Event>, id: FileId) {
    var last := LastKind(events, id);
    last.Some? && last != Some(Deleted)
  }

  predicate Agrees(row: FileRow, events: seq<Event>, id: FileId) {
    row.isDir || (row.Live() <==> Present(events, id))
  }

  predicate LogAgrees(db: Db) {
    forall i :: 0 <= i < |db.tree.files| ==> Agrees(db.tree.files[i], db.events, i)
  }

  lemma {:induction false} NoEventsYet(db: Db, events: seq<Event>, id: FileId)
    requires EventsResolve(db) && events <= db.events && id >= |db.tree.files|
    ensures LastKind(events, id) == None
  {
    if events != [] {
      assert db.events[|events| - 1] in db.events;
      NoEventsYet(db, events[..|events| - 1], id);
    }
  }

  lemma AppendKind(events: seq<Event>, e: Event)
    ensures forall id :: LastKind(events + [e], id) == if id == e.fileId then Some(e.kind) else LastKind(events, id)
  {
    var longer := events + [e];
    assert longer[..|longer| - 1] == events;
  }

  // ------------------------------------------------ directories on the way

  /** The upsert at a location would revive a tombstoned file as a directory. */
  predicate RevivesAt(t: Tree, start: Option<FileId>, name: string) {
    var (u, c) := Intern(t, name);
    var pick := Pick(u.files, start, c);
    pick.Some? && !u.files[pick.value].isDir && !u.files[pick.value].Live()
  }

  /** Ensuring this chain of directories would revive a tombstoned file. */
  predicate RevivesFile(t: Tree, start: Option<FileId>, path: Path)
    decreases |path|
  {
    path != [] && (
      || RevivesAt(t, start, path[0])
      || RevivesFile(EnsureDir(t, start, path[0]).0, Some(EnsureDir(t, start, path[0]).1), path[1..]))
  }

  /** A directory upsert keeps the agreement exactly when it revives no file. */
  lemma DirUpsertAgrees(t: Tree, start: Option<FileId>, name: string, mtime: Option<int>, events: seq<Event>)
    requires Sound(Db(t, events)) && LogAgrees(Db(t, events)) && (start.Some? ==> start.value < |t.files|)
    ensures var (u, c) := Intern(t, name);
            LogAgrees(Db(Upsert(u, start, c, true, None, mtime).0, events)) <==> !RevivesAt(t, start, name)
  {
    var (u, c) := Intern(t, name);
    InternFacts(t, name);
    UpsertFacts(u, start, c, true, None, mtime);
    var (v, id) := Upsert(u, start, c, true, None, mtime);
    if RevivesAt(t, start, name) {
      assert !Agrees(v.files[id], events, id);
    }
  }

  lemma BrokenStays(t: Tree, u: Tree, events: seq<Event>)
    requires Sound(Db(t, events)) && LogAgrees(Db(t, events))
    requires Grows(t, u)
    requires exists i :: 0 <= i < |t.files| && !t.files[i].Live() && !t.files[i].isDir && u.files[i].Live()
    ensures !LogAgrees(Db(u, events))
  {
    var i :| 0 <= i < |t.files| && !t.files[i].Live() && !t.files[i].isDir && u.files[i].Live();
    assert SamePlace(t.files[i], u.files[i]);
    assert !Agrees(u.files[i], events, i);
  }

  /** Ensuring a chain keeps the agreement exactly when it revives no file. */
  lemma {:induction false} EnsureDirsAgrees(t: Tree, start: Option<FileId>, dir: Path, path: Path, events: seq<Event>)
    requires Sound(Db(t, events)) && LogAgrees(Db(t, events)) && LiveStart(t, start, dir)
    ensures LogAgrees(Db(EnsureDirs(t, start, path).0, events)) <==> !RevivesFile(t, start, path)
    decreases |path|
  {
    if path != [] {
      var name, rest := path[0], path[1..];
      var (t1, id) := EnsureDir(t, start, name);
      EnsureDirFacts(t, start, dir, name);
      DirUpsertAgrees(t, start, name, None, events);
      EnsureDirsFacts(t1, Some(id), dir + [name], rest);
      if RevivesAt(t, start, name) {
        RevivedRow(t, start, dir, name);
        GrowsTransitive(t, t1, EnsureDirs(t1, Some(id), rest).0);
        BrokenStays(t, EnsureDirs(t1, Some(id), rest).0, events);
      } else {
        EnsureDirsAgrees(t1, Some(id), dir + [name], rest, events);
      }
    }
  }

  lemma RevivedRow(t: Tree, start: Option<FileId>, dir: Path, name: string)
    requires Valid(t) && LiveStart(t, start, dir) && RevivesAt(t, start, name)
    ensures var (u, id) := EnsureDir(t, start, name);
            id < |t.files| && !t.files[id].Live() && !t.files[id].isDir && u.files[id].Live()
  {
    InternFacts(t, name);
    EnsureDirFacts(t, start, dir, name);
  }

  lemma {:induction false} RevivesSplit(t: Tree, start: Option<FileId>, a: Path, b: Path)
    ensures RevivesFile(t, start, a + b) <==>
              RevivesFile(t, start, a) || RevivesFile(EnsureDirs(t, start, a).0, EnsureDirs(t, start, a).1, b)
    decreases |a|
  {
    if a == [] {
      assert a + b == b;
    } else {
      var (t1, id) := EnsureDir(t, start, a[0]);
      RevivesSplit(t1, Some(id), a[1..], b);
      assert (a + b)[1..] == a[1..] + b;
    }
  }

  // ------------------------------------------------------- observations

  /** Every row but one agrees. */
  predicate LogAgreesBut(db: Db, x: FileId) {
    forall i :: 0 <= i < |db.tree.files| && i != x ==> Agrees(db.tree.files[i], db.events, i)
  }

  /** Appending an event about one row, whose liveness it explains, whatever it was before. */
  lemma ExplainedAgrees(t: Tree, u: Tree, events: seq<Event>, e: Event)
    requires Sound(Db(t, events)) && LogAgreesBut(Db(t, events), e.fileId) && |t.files| <= |u.files| <= |t.files| + 1
    requires e.fileId < |u.files| && (|t.files| < |u.files| ==> e.fileId == |t.files|)
    requires u.files[e.fileId].Live() <==> e.kind != Deleted
    requires forall i :: 0 <= i < |t.files| && i != e.fileId ==> u.files[i] == t.files[i]
    ensures LogAgrees(Db(u, events + [e]))
  {
    AppendKind(events, e);
    forall i: FileId | i < |u.files| ensures Agrees(u.files[i], events + [e], i) {
      if i != e.fileId {
        assert Agrees(t.files[i], events, i);
      }
    }
  }

  /** The directories a path's observation goes through, itself included if it is one. */
  function DirChain(root: Path, path: Path, isDir: bool): Path
    requires root <= path && path != []
  {
    if isDir then RecordedPath(root, path) else ParentDirs(root, path)
  }

  /** An observation keeps the agreement exactly when none of the directories it goes
      through is the tombstone of a file. */
  lemma PathAgreesIff(db: Db, roots: seq<Path>, path: Path, stat: Stat, at: int)
    requires Sound(db) && LogAgrees(db) && stat.Found?
    requires OwningRoot(roots, path).Some? && OwningRoot(roots, path).value != []
    ensures LogAgrees(RecordPath(db, roots, path, stat, at).0) <==>
              !RevivesFile(db.tree, None, DirChain(OwningRoot(roots, path).value, path, stat.isDir))
  {
    var root, name := OwningRoot(roots, path).value, path[|path| - 1];
    EnterParentFacts(db.tree, root, path);
    RecordPathUnfolds(db, roots, path, stat, at);
    EntryAgreesIff(db, ParentDirs(root, path), name, stat.isDir, SizeOf(stat.isDir, stat.len), stat.mtime, at);
  }

  lemma EntryAgreesIff(db: Db, parent: Path, name: string, isDir: bool, size: Option<int>, mtime: Option<int>, at: int)
    requires Sound(db) && LogAgrees(db) && parent != [] && (isDir ==> size == None)
    ensures var (t1, dir) := EnsureDirs(db.tree, None, parent);
            var (t2, id, kind) := RecordAt(t1, dir.value, name, isDir, size, mtime);
            LogAgrees(Logged(db, t2, id, kind, at, size)) <==>
              !RevivesFile(db.tree, None, if isDir then parent + [name] else parent)
  {
    EnsureDirsFacts(db.tree, None, [], parent);
    assert [] + parent == parent;
    EnsureDirsAgrees(db.tree, None, [], parent, db.events);
    var (t1, dir) := EnsureDirs(db.tree, None, parent);
    RevivesChild(db.tree, parent, name);
    if RevivesFile(db.tree, None, parent) {
      RecordAtFacts(t1, dir.value, parent, name, isDir, size, mtime);
      var (t2, id, kind) := RecordAt(t1, dir.value, name, isDir, size, mtime);
      ChainBreak(db, t1, t2, parent, id, parent + [name], kind, at, size);
    } else if isDir {
      DirUpsertAgrees(t1, dir, name, mtime, db.events);
    } else {
      LeafAgrees(t1, dir.value, parent, name, size, mtime, at, db.events);
    }
  }

  lemma RevivesChild(t: Tree, parent: Path, name: string)
    ensures var (u, dir) := EnsureDirs(t, None, parent);
            RevivesFile(t, None, parent + [name]) <==> RevivesFile(t, None, parent) || RevivesAt(u, dir, name)
  {
    RevivesSplit(t, None, parent, [name]);
    assert [name][1..] == [];
  }

  /** A file entry keeps the agreement: unchanged it stays, changed it gets its event. */
  lemma LeafAgrees(t: Tree, dir: FileId, dirPath: Path, name: string, size: Option<int>, mtime: Option<int>, at: int,
                   events: seq<Event>)
    requires Sound(Db(t, events)) && LogAgrees(Db(t, events)) && LivePath(t, dir, dirPath)
    ensures var (u, id, kind) := RecordAt(t, dir, name, false, size, mtime);
            LogAgrees(Db(u, if kind.Some? then events + [NewEvent(id, kind.value, at, size)] else events))
  {
    var (u, id, kind) := RecordAt(t, dir, name, false, size, mtime);
    RecordAtFacts(t, dir, dirPath, name, false, size, mtime);
    RecordAtKind(t, dir, dirPath, name, size, mtime);
    InternFacts(t, name);
    if kind.Some? {
      ExplainedAgrees(t, u, events, NewEvent(id, kind.value, at, size));
    } else {
      forall i: FileId | i < |u.files| ensures Agrees(u.files[i], events, i) {
        assert Agrees(t.files[i], events, i);
      }
    }
  }

  /** A revived directory on the way stays unexplained: the leaf's event is about another row. */
  lemma ChainBreak(db: Db, t1: Tree, t2: Tree, parent: Path, leaf: FileId, leafPath: Path, kind: Option<EventKind>, at: int,
                   size: Option<int>)
    requires Sound(db) && LogAgrees(db) && RevivesFile(db.tree, None, parent)
    requires t1 == EnsureDirs(db.tree, None, parent).0 && Valid(t2) && Grows(t1, t2)
    requires LivePath(t2, leaf, leafPath) && |leafPath| == |parent| + 1
    ensures !LogAgrees(Logged(db, t2, leaf, kind, at, size))
  {
    var r, where := BrokenRow(db.tree, None, [], parent);
    EnsureDirsFacts(db.tree, None, [], parent);
    assert SamePlace(t1.files[r], t2.files[r]);
    assert Agrees(db.tree.files[r], db.events, r);
    ExtendsPath(t1, t2, r, where);
    LivePathIsPath(t2, leaf, leafPath);
    if r == leaf {
      PathUnique(t2, r, where, leafPath);
      assert false;
    }
    var e := NewEvent(leaf, if kind.Some? then kind.value else Created, at, size);
    AppendKind(db.events, e);
    assert !Agrees(t2.files[r], db.events, r) && !Agrees(t2.files[r], db.events + [e], r);
  }

  /** The row a reviving chain brings back, and where it sits. */
  lemma {:induction false} BrokenRow(t: Tree, start: Option<FileId>, dir: Path, path: Path) returns (r: FileId, where: Path)
    requires Valid(t) && LiveStart(t, start, dir) && RevivesFile(t, start, path)
    ensures var u := EnsureDirs(t, start, path).0;
            && r < |t.files| && !t.files[r].Live() && !t.files[r].isDir && r < |u.files| && u.files[r].Live()
            && HasPath(u, r, where) && where <= dir + path
    decreases |path|
  {
    var name, rest := path[0], path[1..];
    var (t1, id) := EnsureDir(t, start, name);
    assert dir + [name] + rest == dir + path;
    EnsureDirFacts(t, start, dir, name);
    EnsureDirsFacts(t1, Some(id), dir + [name], rest);
    var u := EnsureDirs(t1, Some(id), rest).0;
    if RevivesAt(t, start, name) {
      RevivedRow(t, start, dir, name);
      r, where := id, dir + [name];
      LivePathIsPath(t1, id, where);
      ExtendsPath(t1, u, id, where);
    } else {
      r, where := BrokenRow(t1, Some(id), dir + [name], rest);
      NotNewFile(t, start, dir, name, r);
    }
  }

  /** A dead file row after one directory upsert was a dead file row before. */
  lemma NotNewFile(t: Tree, start: Option<FileId>, dir: Path, name: string, r: FileId)
    requires Valid(t) && LiveStart(t, start, dir)
    requires var u := EnsureDir(t, start, name).0; r < |u.files| && !u.files[r].Live()
    ensures r < |t.files| && t.files[r] == EnsureDir(t, start, name).0.files[r]
  {
    InternFacts(t, name);
    var (t1, c) := Intern(t, name);
    UpsertFacts(t1, start, c, true, None, None);
  }

  /** A dead file row that an operation brings back without logging anything of it. */
  lemma Unexplained(db: Db, after: Db, r: FileId)
    requires LogAgrees(db) && r < |db.tree.files| && r < |after.tree.files|
    requires !db.tree.files[r].isDir && !db.tree.files[r].Live()
    requires !after.tree.files[r].isDir && after.tree.files[r].Live()
    requires LastKind(after.events, r) == LastKind(db.events, r)
    ensures !LogAgrees(after)
  {
    assert Agrees(db.tree.files[r], db.events, r);
    assert !Agrees(after.tree.files[r], after.events, r);
  }

  /** A removal keeps the agreement exactly when it does not get as far as the root's chain,
      for want of a root or of the name, or that chain revives no file. */
  lemma RemovalAgreesIff(db: Db, roots: seq<Path>, path: Path, at: int)
    requires Sound(db) && LogAgrees(db) && [] !in roots
    ensures LogAgrees(RecordRemoval(db, roots, path, at).0) <==>
              !(OwningRoot(roots, path).Some? && path != [] && LookupName(db.tree.names, path[|path| - 1]).Some?
                && RevivesFile(db.tree, None, OwningRoot(roots, path).value))
  {
    var owner := OwningRoot(roots, path);
    if owner.Some? && path != [] && LookupName(db.tree.names, path[|path| - 1]).Some? {
      if RevivesFile(db.tree, None, owner.value) {
        RemovalBreaks(db, roots, path, at);
      } else {
        RemovalAgrees(db, roots, path, at);
      }
    }
  }

  /** The row the root's chain revives is not the one removed, which sits below it. */
  lemma RemovalBreaks(db: Db, roots: seq<Path>, path: Path, at: int)
    requires Sound(db) && LogAgrees(db) && [] !in roots && OwningRoot(roots, path).Some? && path != []
    requires LookupName(db.tree.names, path[|path| - 1]).Some?
    requires RevivesFile(db.tree, None, OwningRoot(roots, path).value)
    ensures !LogAgrees(RecordRemoval(db, roots, path, at).0)
  {
    var root, name := OwningRoot(roots, path).value, path[|path| - 1];
    var c := LookupName(db.tree.names, name).value;
    LookupParentFacts(db.tree, root, path);
    var (u, parent, ok) := LookupParent(db.tree, root, path);
    var r, where := BrokenRow(db.tree, None, [], root);
    assert [] + root == root;
    assert SamePlace(db.tree.files[r], u.files[r]);
    var after := RecordRemoval(db, roots, path, at).0;
    if parent.Some? && LiveEntry(u.files, parent, c).Some? {
      var id := LiveEntry(u.files, parent, c).value;
      RootedResolves(u, id);
      var at' := ParentDirs(root, path) + [u.names[c]];
      assert HasPath(u, id, at') by {
        assert at'[..|at'| - 1] == ParentDirs(root, path);
      }
      if r == id {
        PathUnique(u, r, where, at');
        assert false;
      }
      AppendKind(db.events, NewEvent(id, Deleted, at, None));
    }
    Unexplained(db, after, r);
  }

  /** A removal keeps the agreement unless the root's own chain revives a file. */
  lemma RemovalAgrees(db: Db, roots: seq<Path>, path: Path, at: int)
    requires Sound(db) && LogAgrees(db) && [] !in roots
    requires OwningRoot(roots, path).Some? ==> !RevivesFile(db.tree, None, OwningRoot(roots, path).value)
    ensures LogAgrees(RecordRemoval(db, roots, path, at).0)
  {
    var owner := OwningRoot(roots, path);
    if owner.Some? && path != [] && LookupName(db.tree.names, path[|path| - 1]).Some? {
      var c := LookupName(db.tree.names, path[|path| - 1]).value;
      EnsureDirsAgrees(db.tree, None, [], owner.value, db.events);
      LookupParentFacts(db.tree, owner.value, path);
      var (u, parent, ok) := LookupParent(db.tree, owner.value, path);
      if parent.Some? && LiveEntry(u.files, parent, c).Some? {
        var id := LiveEntry(u.files, parent, c).value;
        ExplainedAgrees(u, Tombstone(u, id, at), db.events, NewEvent(id, Deleted, at, None));
      }
    }
  }

  /** A chain that is live already revives nothing. */
  lemma {:induction false} LiveNotRevived(t: Tree, start: Option<FileId>, dir: Path, path: Path, id: FileId)
    requires Valid(t) && LiveStart(t, start, dir) && LivePath(t, id, dir + path)
    ensures !RevivesFile(t, start, path)
    decreases |path|
  {
    if path != [] {
      var name, rest := path[0], path[1..];
      var here := dir + [name];
      assert dir + path == here + rest;
      EnsureDirFacts(t, start, dir, name);
      EnsureDirFinds(t, start, dir, name, rest, id);
      LiveStepNotRevived(t, start, dir, name, rest, id);
      var (t1, sub) := EnsureDir(t, start, name);
      LiveNotRevived(t1, Some(sub), here, rest, id);
    }
  }

  lemma LiveStepNotRevived(t: Tree, start: Option<FileId>, dir: Path, name: string, rest: Path, id: FileId)
    requires Valid(t) && LiveStart(t, start, dir) && LivePath(t, id, dir + [name] + rest)
    ensures !RevivesAt(t, start, name)
  {
    var step := LiveAncestor(t, id, dir + [name], rest);
    LookupNameAt(t.names, t.files[step].component);
    assert (dir + [name])[..|dir|] == dir;
    if start.Some? {
      LivePathUnique(t, start.value, t.files[step].parent.value, dir);
    }
    PickLive(t.files, start, t.files[step].component, step);
  }

  /** A rename of a known source keeps the agreement when the directories it ensures
      revive no file: the displaced row gets its deletion, the moved one its rename. */
  lemma RenameAgrees(db: Db, roots: seq<Path>, from: Path, to: Path, stat: Stat, at: int)
    requires Sound(db) && LogAgrees(db) && Inside(roots, from) && Inside(roots, to)
    requires LookupFile(db.tree, roots, from).1.Known? && !(from < to)
    requires !RevivesFile(db.tree, None, OwningRoot(roots, from).value)
    requires !RevivesFile(LookupFile(db.tree, roots, from).0, None, to[..|to| - 1])
    ensures LogAgrees(RecordRename(db, roots, from, to, stat, at).0)
  {
    RenameUnfolds(db, roots, from, to, stat, at);
    PreparedSource(db.tree, roots, from, to);
    PreparedDestination(db.tree, roots, from, to);
    PreparedAgrees(db, roots, from, to);
    var (u, source, dir, c, there) := Prepared(db.tree, roots, from, to);
    assert MoveReady(db.tree, u, source.id, to, dir, c, there);
    MovedAgrees(db.tree, u, source, to, dir, c, there, stat, at, db.events);
  }

  /** Ensuring this chain of directories would revive a tombstoned file that is not at `spare`. */
  ghost predicate RevivesElsewhere(t: Tree, path: Path, spare: Path) {
    exists k :: 0 <= k < |path| && path[..k + 1] != spare && RevivesStep(t, path, k)
  }

  predicate RevivesStep(t: Tree, path: Path, k: nat)
    requires k < |path|
  {
    var (u, at) := EnsureDirs(t, None, path[..k]);
    RevivesAt(u, at, path[k])
  }

  /** A rename of a known source keeps the agreement exactly when the directories it goes
      through revive no file, other than one at the destination itself, whose row it
      displaces and logs as deleted. */
  lemma RenameAgreesIff(db: Db, roots: seq<Path>, from: Path, to: Path, stat: Stat, at: int)
    requires Sound(db) && LogAgrees(db) && Inside(roots, from) && Inside(roots, to)
    requires LookupFile(db.tree, roots, from).1.Known? && !(from < to)
    ensures LogAgrees(RecordRename(db, roots, from, to, stat, at).0) <==>
              && !RevivesElsewhere(db.tree, OwningRoot(roots, from).value, to)
              && !RevivesFile(LookupFile(db.tree, roots, from).0, None, to[..|to| - 1])
  {
    var root := OwningRoot(roots, from).value;
    if RevivesElsewhere(db.tree, root, to) {
      SourceRootBreaks(db, roots, from, to, stat, at);
    } else if RevivesFile(LookupFile(db.tree, roots, from).0, None, to[..|to| - 1]) {
      DestinationBreaks(db, roots, from, to, stat, at);
    } else if RevivesFile(db.tree, None, root) {
      DisplacedExplains(db, roots, from, to, stat, at);
    } else {
      RenameAgrees(db, roots, from, to, stat, at);
    }
  }

  lemma SourceRootBreaks(db: Db, roots: seq<Path>, from: Path, to: Path, stat: Stat, at: int)
    requires Sound(db) && LogAgrees(db) && Inside(roots, from) && Inside(roots, to)
    requires LookupFile(db.tree, roots, from).1.Known? && !(from < to)
    requires RevivesElsewhere(db.tree, OwningRoot(roots, from).value, to)
    ensures !LogAgrees(RecordRename(db, roots, from, to, stat, at).0)
  {
    var root := OwningRoot(roots, from).value;
    var k :| 0 <= k < |root| && root[..k + 1] != to && RevivesStep(db.tree, root, k);
    var r := RowRevived(db.tree, root, k);
    assert root[..k + 1] <= root < from;
    RenameBreaks(db, roots, from, to, stat, at, LookupFile(db.tree, roots, from).0, r, root[..k + 1]);
  }

  /** The row a chain revives at one of its steps. */
  lemma RowRevived(t: Tree, path: Path, k: nat) returns (r: FileId)
    requires Valid(t) && k < |path| && RevivesStep(t, path, k)
    ensures var u := EnsureDirs(t, None, path).0;
            && r < |t.files| && !t.files[r].Live() && !t.files[r].isDir && r < |u.files| && u.files[r].Live()
            && HasPath(u, r, path[..k + 1])
  {
    var before, name, rest := path[..k], path[k], path[k + 1..];
    assert path[..k + 1] == before + [name] && path == before + [name] + rest;
    EnsureDirsFacts(t, None, [], before);
    assert [] + before == before;
    var (u, at) := EnsureDirs(t, None, before);
    RevivedRow(u, at, before, name);
    EnsureDirFacts(u, at, before, name);
    var (v, id) := EnsureDir(u, at, name);
    EnsureOneMore(t, None, before, name);
    EnsureDirsSplit(t, None, before + [name], rest);
    EnsureDirsFacts(v, Some(id), before + [name], rest);
    LivePathIsPath(v, id, before + [name]);
    ExtendsPath(v, EnsureDirs(t, None, path).0, id, before + [name]);
    EnsureDirsAddsLive(t, None, [], before, id);
    assert SamePlace(t.files[id], u.files[id]);
    r := id;
  }

  /** A chain that revives no file breaks no further agreement. */
  lemma {:induction false} ChainKeepsBut(t: Tree, start: Option<FileId>, dir: Path, path: Path, events: seq<Event>, x: FileId)
    requires Sound(Db(t, events)) && LogAgreesBut(Db(t, events), x) && LiveStart(t, start, dir)
    requires !RevivesFile(t, start, path)
    ensures LogAgreesBut(Db(EnsureDirs(t, start, path).0, events), x)
    decreases |path|
  {
    if path != [] {
      var (u, id) := EnsureDir(t, start, path[0]);
      EnsureDirFacts(t, start, dir, path[0]);
      DirKeepsBut(t, start, path[0], events, x);
      ChainKeepsBut(u, Some(id), dir + [path[0]], path[1..], events, x);
    }
  }

  lemma DirKeepsBut(t: Tree, start: Option<FileId>, name: string, events: seq<Event>, x: FileId)
    requires Sound(Db(t, events)) && LogAgreesBut(Db(t, events), x) && (start.Some? ==> start.value < |t.files|)
    ensures !RevivesAt(t, start, name) ==> LogAgreesBut(Db(EnsureDir(t, start, name).0, events), x)
    ensures RevivesAt(t, start, name) && LogAgrees(Db(t, events)) ==>
              LogAgreesBut(Db(EnsureDir(t, start, name).0, events), EnsureDir(t, start, name).1)
  {
    var (u, c) := Intern(t, name);
    InternFacts(t, name);
    UpsertFacts(u, start, c, true, None, None);
    var (v, id) := Upsert(u, start, c, true, None, None);
    forall i: FileId | i < |v.files| && i != id && i != x ensures Agrees(v.files[i], events, i) {
      assert Agrees(t.files[i], events, i);
    }
    if id < |t.files| && id != x {
      assert Agrees(t.files[id], events, id);
    }
  }

  /** The root's chain revives a file at the destination alone: its row is displaced, and
      the deletion that is logged explains it. */
  lemma DisplacedExplains(db: Db, roots: seq<Path>, from: Path, to: Path, stat: Stat, at: int)
    requires Sound(db) && LogAgrees(db) && Inside(roots, from) && Inside(roots, to)
    requires LookupFile(db.tree, roots, from).1.Known? && !(from < to)
    requires RevivesFile(db.tree, None, OwningRoot(roots, from).value)
    requires !RevivesElsewhere(db.tree, OwningRoot(roots, from).value, to)
    requires !RevivesFile(LookupFile(db.tree, roots, from).0, None, to[..|to| - 1])
    ensures LogAgrees(RecordRename(db, roots, from, to, stat, at).0)
  {
    var r := DisplacedRow(db, roots, from, to);
    PreparedSource(db.tree, roots, from, to);
    PreparedDestination(db.tree, roots, from, to);
    var (u, source, dir, c, there) := Prepared(db.tree, roots, from, to);
    ThereIs(u, dir, to, c, there, r);
    RenameUnfolds(db, roots, from, to, stat, at);
    assert MoveReady(db.tree, u, source.id, to, dir, c, there);
    MovedAgrees(db.tree, u, source, to, dir, c, there, stat, at, db.events);
  }

  /** The revived row, as the tree stands before the move. */
  lemma DisplacedRow(db: Db, roots: seq<Path>, from: Path, to: Path) returns (r: FileId)
    requires Sound(db) && LogAgrees(db) && Inside(roots, from) && Inside(roots, to)
    requires LookupFile(db.tree, roots, from).1.Known?
    requires RevivesFile(db.tree, None, OwningRoot(roots, from).value)
    requires !RevivesElsewhere(db.tree, OwningRoot(roots, from).value, to)
    requires !RevivesFile(LookupFile(db.tree, roots, from).0, None, to[..|to| - 1])
    ensures var (u, source, _, _, _) := Prepared(db.tree, roots, from, to);
            && Sound(Db(u, db.events)) && LogAgreesBut(Db(u, db.events), r)
            && LivePath(u, r, to) && source.Known? && r != source.id
  {
    var t0 := LookupFile(db.tree, roots, from).0;
    r := SourceRootRow(db, roots, from, to);
    PreparedKeepsBut(db.tree, roots, from, to, db.events, r);
    PreparedFrom(db.tree, roots, from, to);
    GrowsLivePath(t0, Prepared(db.tree, roots, from, to).0, r, to);
    NotTheSource(db.tree, roots, from, to, r);
  }

  lemma SourceRootRow(db: Db, roots: seq<Path>, from: Path, to: Path) returns (r: FileId)
    requires Sound(db) && LogAgrees(db) && Inside(roots, from) && LookupFile(db.tree, roots, from).1.Known?
    requires RevivesFile(db.tree, None, OwningRoot(roots, from).value)
    requires !RevivesElsewhere(db.tree, OwningRoot(roots, from).value, to)
    ensures var t := LookupFile(db.tree, roots, from).0;
            && Sound(Db(t, db.events)) && LogAgreesBut(Db(t, db.events), r)
            && LivePath(t, r, to) && to <= OwningRoot(roots, from).value
  {
    LookupFileFacts(db.tree, roots, from);
    r := RevivedThere(db, OwningRoot(roots, from).value, to);
  }

  lemma NotTheSource(t: Tree, roots: seq<Path>, from: Path, to: Path, r: FileId)
    requires Valid(t) && Inside(roots, from) && Inside(roots, to) && LookupFile(t, roots, from).1.Known?
    requires to <= OwningRoot(roots, from).value && LivePath(Prepared(t, roots, from, to).0, r, to)
    ensures var (u, source, _, _, _) := Prepared(t, roots, from, to);
            Valid(u) && Grows(t, u) && source.Known? && r != source.id
  {
    PreparedSource(t, roots, from, to);
    var (u, source, _, _, _) := Prepared(t, roots, from, to);
    LivePathIsPath(u, r, to);
    if r == source.id {
      PathUnique(u, r, from, to);
    }
  }

  lemma ThereIs(u: Tree, dir: FileId, to: Path, c: ComponentId, there: Lookup, r: FileId)
    requires Valid(u) && |to| > 1 && LivePath(u, dir, to[..|to| - 1]) && IsLookup(u, dir, c, there)
    requires c < |u.names| && u.names[c] == to[|to| - 1] && LivePath(u, r, to)
    ensures there.Known? && there.id == r
  {
    LivePathUnique(u, u.files[r].parent.value, dir, to[..|to| - 1]);
    LookupNameAt(u.names, c);
    LookupNameAt(u.names, u.files[r].component);
    PickLive(u.files, Some(dir), c, r);
  }

  /** The step at which a chain, from `a` on, revives a file. */
  lemma {:induction false} StepOf(t: Tree, a: Path, b: Path) returns (k: nat)
    requires RevivesFile(EnsureDirs(t, None, a).0, EnsureDirs(t, None, a).1, b)
    ensures |a| <= k < |a + b| && RevivesStep(t, a + b, k)
    decreases |b|
  {
    var (u, at) := EnsureDirs(t, None, a);
    var init, last, whole := b[..|b| - 1], b[|b| - 1], a + b;
    assert b == init + [last] && whole[..|whole| - 1] == a + init && whole[|whole| - 1] == last;
    RevivesLast(t, a, init, last);
    if RevivesFile(u, at, init) {
      k := StepOf(t, a, init);
      SameStep(t, a + init, whole, k);
    } else {
      k := |whole| - 1;
      assert whole[..k] == a + init && whole[k] == last;
    }
  }

  lemma RevivesLast(t: Tree, a: Path, init: Path, last: string)
    ensures var (u, at) := EnsureDirs(t, None, a);
            var (v, here) := EnsureDirs(t, None, a + init);
            RevivesFile(u, at, init + [last]) <==> RevivesFile(u, at, init) || RevivesAt(v, here, last)
  {
    var (u, at) := EnsureDirs(t, None, a);
    RevivesSplit(u, at, init, [last]);
    EnsureDirsSplit(t, None, a, init);
    assert [last][1..] == [];
  }

  lemma SameStep(t: Tree, path: Path, longer: Path, k: nat)
    requires k < |path| && path <= longer && RevivesStep(t, path, k)
    ensures RevivesStep(t, longer, k)
  {
    assert longer[..k] == path[..k];
  }

  lemma ElsewhereAt(t: Tree, path: Path, spare: Path, k: nat)
    requires k < |path| && k + 1 != |spare| && RevivesStep(t, path, k)
    ensures RevivesElsewhere(t, path, spare)
  {
    assert |path[..k + 1]| != |spare|;
  }

  lemma NotBefore(t: Tree, path: Path, spare: Path, k: nat)
    requires k < |path| && spare == path[..k + 1] && !RevivesElsewhere(t, path, spare)
    ensures !RevivesFile(t, None, path[..k])
  {
    var before := path[..k];
    if RevivesFile(t, None, before) {
      assert [] + before == before;
      var j := StepOf(t, [], before);
      SameStep(t, before, path, j);
      ElsewhereAt(t, path, spare, j);
      assert false;
    }
  }

  lemma NotAfter(t: Tree, path: Path, spare: Path, rest: Path)
    requires path == spare + rest && !RevivesElsewhere(t, path, spare)
    ensures !RevivesFile(EnsureDirs(t, None, spare).0, EnsureDirs(t, None, spare).1, rest)
  {
    if RevivesFile(EnsureDirs(t, None, spare).0, EnsureDirs(t, None, spare).1, rest) {
      var j := StepOf(t, spare, rest);
      ElsewhereAt(t, path, spare, j);
      assert false;
    }
  }

  lemma PreparedKeepsBut(t: Tree, roots: seq<Path>, from: Path, to: Path, events: seq<Event>, x: FileId)
    requires Inside(roots, from) && Inside(roots, to)
    requires var t0 := LookupFile(t, roots, from).0;
             Sound(Db(t0, events)) && LogAgreesBut(Db(t0, events), x) && !RevivesFile(t0, None, to[..|to| - 1])
    ensures LogAgreesBut(Db(Prepared(t, roots, from, to).0, events), x)
  {
    var t0, root, parent := LookupFile(t, roots, from).0, OwningRoot(roots, to).value, to[..|to| - 1];
    InsideParent(roots, to);
    EnterParentFacts(t0, root, to);
    ChainKeepsBut(t0, None, [], parent, events, x);
    var (t1, dir) := EnterParent(t0, root, to);
    DestinationKeepsBut(t1, roots, to, dir.value, events, x);
  }

  lemma DestinationKeepsBut(t: Tree, roots: seq<Path>, to: Path, dir: FileId, events: seq<Event>, x: FileId)
    requires Sound(Db(t, events)) && LogAgreesBut(Db(t, events), x)
    requires Inside(roots, to) && LivePath(t, dir, to[..|to| - 1])
    ensures LogAgreesBut(Db(LookupFile(Intern(t, to[|to| - 1]).0, roots, to).0, events), x)
  {
    var u := Intern(t, to[|to| - 1]).0;
    InternKeepsBut(t, to[|to| - 1], events, x);
    RootEnsured(u, t, roots, to, dir);
    ChainKeepsBut(u, None, [], OwningRoot(roots, to).value, events, x);
    LookupTree(u, roots, to);
  }

  lemma InternKeepsBut(t: Tree, name: string, events: seq<Event>, x: FileId)
    requires Sound(Db(t, events)) && LogAgreesBut(Db(t, events), x)
    ensures var u := Intern(t, name).0;
            Sound(Db(u, events)) && LogAgreesBut(Db(u, events), x) && Grows(t, u)
  {
    InternFacts(t, name);
    forall i: FileId | i < |t.files| && i != x ensures Agrees(Intern(t, name).0.files[i], events, i) {
      assert Agrees(t.files[i], events, i);
    }
  }

  lemma LookupTree(t: Tree, roots: seq<Path>, path: Path)
    requires Inside(roots, path)
    ensures LookupFile(t, roots, path).0 == t
            || LookupFile(t, roots, path).0 == EnsureDirs(t, None, OwningRoot(roots, path).value).0
  {
  }

  /** Once the destination's directories are there, its root's chain revives nothing. */
  lemma RootEnsured(u: Tree, t: Tree, roots: seq<Path>, to: Path, dir: FileId)
    requires Valid(t) && Valid(u) && Grows(t, u) && Inside(roots, to) && LivePath(t, dir, to[..|to| - 1])
    ensures !RevivesFile(u, None, OwningRoot(roots, to).value)
  {
    var root, parent := OwningRoot(roots, to).value, to[..|to| - 1];
    GrowsLivePath(t, u, dir, parent);
    assert parent == root + to[|root|..|to| - 1];
    var up := LiveAncestor(u, dir, root, to[|root|..|to| - 1]);
    assert [] + root == root;
    LiveNotRevived(u, None, [], root, up);
  }

  /** Only the row at `spare` is revived, and only it disagrees. */
  lemma RevivedThere(db: Db, path: Path, spare: Path) returns (r: FileId)
    requires Sound(db) && LogAgrees(db) && RevivesFile(db.tree, None, path) && !RevivesElsewhere(db.tree, path, spare)
    ensures var u := EnsureDirs(db.tree, None, path).0;
            spare <= path && LivePath(u, r, spare) && LogAgreesBut(Db(u, db.events), r)
  {
    var k := StepOf(db.tree, [], path);
    assert [] + path == path && path[..k + 1] == spare;
    var before, name, rest := path[..k], path[k], path[k + 1..];
    assert spare == before + [name] && path == spare + rest;
    NotBefore(db.tree, path, spare, k);
    EnsureDirsFacts(db.tree, None, [], before);
    assert [] + before == before;
    EnsureDirsAgrees(db.tree, None, [], before, db.events);
    var (u, at) := EnsureDirs(db.tree, None, before);
    DirKeepsBut(u, at, name, db.events, 0);
    EnsureDirFacts(u, at, before, name);
    var (v, id) := EnsureDir(u, at, name);
    r := id;
    EnsureOneMore(db.tree, None, before, name);
    EnsureDirsSplit(db.tree, None, spare, rest);
    NotAfter(db.tree, path, spare, rest);
    ChainKeepsBut(v, Some(id), spare, rest, db.events, r);
    EnsureDirsFacts(v, Some(id), spare, rest);
    GrowsLivePath(v, EnsureDirs(db.tree, None, path).0, r, spare);
  }
  lemma DestinationBreaks(db: Db, roots: seq<Path>, from: Path, to: Path, stat: Stat, at: int)
    requires Sound(db) && LogAgrees(db) && Inside(roots, from) && Inside(roots, to)
    requires LookupFile(db.tree, roots, from).1.Known? && !(from < to)
    requires RevivesFile(LookupFile(db.tree, roots, from).0, None, to[..|to| - 1])
    ensures !LogAgrees(RecordRename(db, roots, from, to, stat, at).0)
  {
    var root, parent := OwningRoot(roots, to).value, to[..|to| - 1];
    var t0 := LookupFile(db.tree, roots, from).0;
    LookupFileFacts(db.tree, roots, from);
    var r, where := RevivedOnWay(t0, root, to);
    DeadBefore(db.tree, roots, from, r);
    RenameBreaks(db, roots, from, to, stat, at, EnterParent(t0, root, to).0, r, where);
  }

  lemma RevivedOnWay(t: Tree, root: Path, path: Path) returns (r: FileId, where: Path)
    requires Valid(t) && root != [] && root < path && RevivesFile(t, None, path[..|path| - 1])
    ensures var u := EnterParent(t, root, path).0;
            && r < |t.files| && !t.files[r].Live() && !t.files[r].isDir && r < |u.files| && u.files[r].Live()
            && HasPath(u, r, where) && where < path
  {
    var parent := path[..|path| - 1];
    ParentDirsInside(root, path);
    EnterParentFacts(t, root, path);
    r, where := BrokenRow(t, None, [], parent);
    assert [] + parent == parent;
  }

  /** A dead file row after a lookup that revived none was one before. */
  lemma DeadBefore(t: Tree, roots: seq<Path>, path: Path, r: FileId)
    requires Valid(t) && Inside(roots, path)
    requires var u := LookupFile(t, roots, path).0; r < |u.files| && !u.files[r].Live()
    ensures r < |t.files| && !t.files[r].Live() && t.files[r].isDir == LookupFile(t, roots, path).0.files[r].isDir
  {
    var root := OwningRoot(roots, path).value;
    LookupFileFacts(t, roots, path);
    var u := LookupFile(t, roots, path).0;
    if u != t {
      EnsureDirsAddsLive(t, None, [], root, r);
    }
    assert SamePlace(t.files[r], u.files[r]);
  }

  lemma {:induction false} EnsureDirsAddsLive(t: Tree, start: Option<FileId>, dir: Path, path: Path, r: FileId)
    requires Valid(t) && LiveStart(t, start, dir)
    requires var u := EnsureDirs(t, start, path).0; r < |u.files| && !u.files[r].Live()
    ensures r < |t.files| && !t.files[r].Live()
    decreases |path|
  {
    if path != [] {
      var (t1, id) := EnsureDir(t, start, path[0]);
      EnsureDirFacts(t, start, dir, path[0]);
      EnsureDirsAddsLive(t1, Some(id), dir + [path[0]], path[1..], r);
      NotNewFile(t, start, dir, path[0], r);
    }
  }

  /** A file row revived on the way, at neither endpoint, stays unexplained. */
  lemma RenameBreaks(db: Db, roots: seq<Path>, from: Path, to: Path, stat: Stat, at: int, t: Tree, r: FileId, where: Path)
    requires Sound(db) && LogAgrees(db) && Inside(roots, from) && Inside(roots, to)
    requires LookupFile(db.tree, roots, from).1.Known? && !(from < to)
    requires r < |db.tree.files| && !db.tree.files[r].isDir && !db.tree.files[r].Live()
    requires HasPath(t, r, where) && t.files[r].Live() && where != from && where != to
    requires t == LookupFile(db.tree, roots, from).0
             || t == EnterParent(LookupFile(db.tree, roots, from).0, OwningRoot(roots, to).value, to).0
    ensures !LogAgrees(RecordRename(db, roots, from, to, stat, at).0)
  {
    PreparedFrom(db.tree, roots, from, to);
    var u := Prepared(db.tree, roots, from, to).0;
    ExtendsPath(t, u, r, where);
    AtNeitherEnd(db.tree, roots, from, to, r, where);
    var (_, source, dir, c, there) := Prepared(db.tree, roots, from, to);
    assert SamePlace(db.tree.files[r], u.files[r]);
    RenameUnfolds(db, roots, from, to, stat, at);
    OthersEvents(db.events, source, there, stat, at, r);
    Unexplained(db, RecordRename(db, roots, from, to, stat, at).0, r);
  }

  lemma AtNeitherEnd(t: Tree, roots: seq<Path>, from: Path, to: Path, r: FileId, where: Path)
    requires Valid(t) && Inside(roots, from) && Inside(roots, to) && LookupFile(t, roots, from).1.Known?
    requires HasPath(Prepared(t, roots, from, to).0, r, where) && where != from && where != to
    ensures var (u, source, dir, c, there) := Prepared(t, roots, from, to);
            && Valid(u) && Grows(t, u) && source.Known? && r != source.id && (there.Known? ==> r != there.id)
  {
    PreparedSource(t, roots, from, to);
    PreparedDestination(t, roots, from, to);
    var (u, source, dir, c, there) := Prepared(t, roots, from, to);
    if r == source.id {
      PathUnique(u, r, where, from);
    }
    if there.Known? && r == there.id {
      ThereHasPath(u, dir, to, c, there);
      PathUnique(u, r, where, to);
    }
  }

  lemma ThereHasPath(u: Tree, dir: FileId, to: Path, c: ComponentId, there: Lookup)
    requires Valid(u) && to != [] && LivePath(u, dir, to[..|to| - 1]) && IsLookup(u, dir, c, there) && there.Known?
    requires c < |u.names| && u.names[c] == to[|to| - 1]
    ensures HasPath(u, there.id, to)
  {
    LivePathIsPath(u, dir, to[..|to| - 1]);
  }

  lemma PreparedFrom(t: Tree, roots: seq<Path>, from: Path, to: Path)
    requires Valid(t) && Inside(roots, from) && Inside(roots, to)
    ensures var t0 := LookupFile(t, roots, from).0;
            var t1 := EnterParent(t0, OwningRoot(roots, to).value, to).0;
            var u := Prepared(t, roots, from, to).0;
            Grows(t0, u) && Grows(t1, u)
  {
    LookupFileFacts(t, roots, from);
    var t0 := LookupFile(t, roots, from).0;
    EnterParentFacts(t0, OwningRoot(roots, to).value, to);
    var t1 := EnterParent(t0, OwningRoot(roots, to).value, to).0;
    PreparedGrows(t1, roots, to);
    GrowsTransitive(t0, t1, Prepared(t, roots, from, to).0);
  }

  lemma OthersEvents(events: seq<Event>, source: Lookup, there: Lookup, stat: Stat, at: int, r: FileId)
    requires source.Known? && r != source.id && (there.Known? ==> r != there.id)
    ensures LastKind(events + RenameEvents(source, there, stat, at), r) == LastKind(events, r)
  {
    var renamed := RenamedEvent(source, stat, at);
    AppendKind(events, renamed);
    if there.Known? && there.id != source.id {
      var deleted := NewEvent(there.id, Deleted, at, None);
      AppendKind(events, deleted);
      AppendKind(events + [deleted], renamed);
      assert events + RenameEvents(source, there, stat, at) == events + [deleted] + [renamed];
    } else {
      assert RenameEvents(source, there, stat, at) == [renamed];
    }
  }

  /** Rows and history agree, but for a displaced row, whose deletion is still to come. */
  predicate AgreesButThere(db: Db, m: FileId, there: Lookup) {
    if there.Known? && there.id != m then LogAgreesBut(db, there.id) else LogAgrees(db)
  }

  lemma MovedAgrees(t: Tree, u: Tree, source: Lookup, to: Path, dir: FileId, c: ComponentId, there: Lookup, stat: Stat, at: int,
                    events: seq<Event>)
    requires source.Known? && MoveReady(t, u, source.id, to, dir, c, there)
    requires Sound(Db(u, events)) && AgreesButThere(Db(u, events), source.id, there)
    ensures LogAgrees(Db(Moved(u, source.id, dir, c, there, at), events + RenameEvents(source, there, stat, at)))
  {
    var f := Freed(u, source.id, there, at);
    var renamed := RenamedEvent(source, stat, at);
    FreedAgrees(t, u, source.id, to, dir, c, there, at, events);
    ExplainedAgrees(f, Move(f, source.id, dir, c), events + FreedEvents(source.id, there, at), renamed);
    assert events + FreedEvents(source.id, there, at) + [renamed] == events + RenameEvents(source, there, stat, at);
  }

  /** The deletion of what was at the destination. */
  function FreedEvents(m: FileId, there: Lookup, at: int): seq<Event> {
    if there.Known? && there.id != m then [NewEvent(there.id, Deleted, at, None)] else []
  }

  lemma FreedAgrees(t: Tree, u: Tree, m: FileId, to: Path, dir: FileId, c: ComponentId, there: Lookup, at: int, events: seq<Event>)
    requires MoveReady(t, u, m, to, dir, c, there)
    requires Sound(Db(u, events)) && AgreesButThere(Db(u, events), m, there)
    ensures var after := Db(Freed(u, m, there, at), events + FreedEvents(m, there, at));
            Sound(after) && LogAgrees(after) && |after.tree.files| == |u.files|
  {
    if there.Known? && there.id != m {
      DeleteSound(Db(u, events), there.id, at);
      ExplainedAgrees(u, Freed(u, m, there, at), events, NewEvent(there.id, Deleted, at, None));
    } else {
      assert events + [] == events;
    }
  }

  lemma PreparedAgrees(db: Db, roots: seq<Path>, from: Path, to: Path)
    requires Sound(db) && LogAgrees(db) && Inside(roots, from) && Inside(roots, to)
    requires !RevivesFile(db.tree, None, OwningRoot(roots, from).value)
    requires !RevivesFile(LookupFile(db.tree, roots, from).0, None, to[..|to| - 1])
    ensures var u := Prepared(db.tree, roots, from, to).0;
            Sound(Db(u, db.events)) && LogAgrees(Db(u, db.events))
  {
    LookupAgrees(db.tree, roots, from, db.events);
    var t0 := LookupFile(db.tree, roots, from).0;
    var root := OwningRoot(roots, to).value;
    InsideParent(roots, to);
    EnterParentFacts(t0, root, to);
    EnsureDirsAgrees(t0, None, [], to[..|to| - 1], db.events);
    var (t1, dir) := EnterParent(t0, root, to);
    InternFacts(t1, to[|to| - 1]);
    var t2 := Intern(t1, to[|to| - 1]).0;
    RootEnsured(t2, t1, roots, to, dir.value);
    LookupAgrees(t2, roots, to, db.events);
  }

  lemma LookupAgrees(t: Tree, roots: seq<Path>, path: Path, events: seq<Event>)
    requires Sound(Db(t, events)) && LogAgrees(Db(t, events)) && Inside(roots, path)
    requires !RevivesFile(t, None, OwningRoot(roots, path).value)
    ensures var u := LookupFile(t, roots, path).0;
            Sound(Db(u, events)) && LogAgrees(Db(u, events))
  {
    LookupFileFacts(t, roots, path);
    EnsureDirsAgrees(t, None, [], OwningRoot(roots, path).value, events);
  }

  // ------------------------------------------------- where agreement breaks

  /** Row `id` is the only one, dead or alive, ever recorded at `path`. */
  ghost predicate OnlyRowAt(t: Tree, id: FileId, path: Path) {
    HasPath(t, id, path) && forall j: FileId :: HasPath(t, j, path) ==> j == id
  }

  lemma OnlyRowStays(t: Tree, u: Tree, id: FileId, path: Path, dir: Path)
    requires Valid(t) && OnlyRowAt(t, id, path) && u == EnsureDirs(t, None, dir).0 && !(path <= dir)
    ensures OnlyRowAt(u, id, path) && u.files[id] == t.files[id]
  {
    EnsureDirsFacts(t, None, [], dir);
    assert [] + dir == dir;
    ExtendsPath(t, u, id, path);
    EnsureDirsFrame(t, None, [], dir, id, path);
    forall j: FileId | HasPath(u, j, path) ensures j == id {
      if j < |t.files| {
        PathBack(t, u, j, path);
      } else {
        NewRowOnChain(t, None, [], dir, j, path);
        assert false;
      }
    }
  }

  /** A directory observed where the only row is that of a deleted file takes the row
      over: it is live although its last event is a deletion. */
  lemma DirectoryOverDeletedFile(db: Db, roots: seq<Path>, path: Path, mtime: Option<int>, id: FileId, dir: FileId,
                                 at: int)
    requires Sound(db) && LogAgrees(db) && Inside(roots, path)
    requires OnlyRowAt(db.tree, id, path) && !db.tree.files[id].isDir && !db.tree.files[id].Live()
    requires LivePath(db.tree, dir, path[..|path| - 1]) && db.tree.files[id].parent == Some(dir)
    ensures var after := RecordPath(db, roots, path, Found(true, 0, mtime), at).0;
            && !LogAgrees(after)
            && id < |after.tree.files| && after.tree.files[id].Live() && LastKind(after.events, id) == LastKind(db.events, id)
  {
    var root := OwningRoot(roots, path).value;
    var parent, name := path[..|path| - 1], path[|path| - 1];
    InsideParent(roots, path);
    EnterParentFacts(db.tree, root, path);
    var t1 := EnterParent(db.tree, root, path).0;
    assert [] + parent == parent && path == parent + [name];
    EnsureDirsFinds(db.tree, None, [], parent, dir);
    OnlyRowStays(db.tree, t1, id, path, parent);
    OnlyRowPicked(t1, dir, parent, name, id, path);
    RecordPathUnfolds(db, roots, path, Found(true, 0, mtime), at);
    RecordAtFacts(t1, dir, parent, name, true, None, mtime);
    Unexplained(db, RecordPath(db, roots, path, Found(true, 0, mtime), at).0, id);
  }

  lemma OnlyRowPicked(t: Tree, dir: FileId, parent: Path, name: string, id: FileId, path: Path)
    requires Valid(t) && LivePath(t, dir, parent) && OnlyRowAt(t, id, path)
    requires path != [] && path[..|path| - 1] == parent && path[|path| - 1] == name
    requires t.files[id].parent == Some(dir)
    ensures var (u, c) := Intern(t, name);
            u.files == t.files && Pick(u.files, Some(dir), c) == Some(id)
  {
    InternFacts(t, name);
    var (u, c) := Intern(t, name);
    LookupNameAt(t.names, t.files[id].component);
    var pick := Pick(u.files, Some(dir), c);
    assert t.files[id].At(Some(dir), c);
    LivePathIsPath(t, dir, parent);
    assert HasPath(t, pick.value, path);
  }
}
