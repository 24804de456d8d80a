// Crash convergence: any number of scans killed anywhere, then one complete scan, leave
// one Created event per file and nothing else.
module Convergence {
  import opened Tables
  import opened PathTree
  import opened Paths
  import opened Recording
  import opened Scan

  function EventsOf(events: seq<Event>, id: FileId): seq<Event> {
    if events == [] then [] else
    var last := events[|events| - 1];
    EventsOf(events[..|events| - 1], id) + (if last.fileId == id then [last] else [])
  }

  /** `path` is a file of the tree. */
  predicate OnFile(root: Path, disk: Disk, path: Path) {
    root <= path && IsFile(disk, path[|root|..])
  }

  /** A file's row says what the tree says and has one event, its creation; any other
      row has none. */
  ghost predicate Explained(db: Db, root: Path, disk: Disk, id: FileId, path: Path)
    requires id < |db.tree.files|
  {
    var own := EventsOf(db.events, id);
    if OnFile(root, disk, path) then
      var node := disk[path[|root|..]];
      var row := db.tree.files[id];
      && row.size == Some(node.len) && row.mtime == node.mtime
      && |own| == 1 && own[0].kind == Created && own[0].size == Some(node.len)
    else own == []
  }

  /** What holds of the store of a tree however its scans were interrupted. */
  ghost predicate Partial(db: Db, root: Path, disk: Disk) {
    && Sound(db)
    && (forall i :: 0 <= i < |db.tree.files| ==> db.tree.files[i].Live())
    && (forall id: FileId, path :: HasPath(db.tree, id, path) ==> Explained(db, root, disk, id, path))
  }

  lemma {:induction false} NoEventsOf(db: Db, events: seq<Event>, id: FileId)
    requires EventsResolve(db) && events <= db.events && id >= |db.tree.files|
    ensures EventsOf(events, id) == []
  {
    if events != [] {
      assert db.events[|events| - 1] in db.events;
      NoEventsOf(db, events[..|events| - 1], id);
    }
  }

  lemma AppendEventsOf(events: seq<Event>, e: Event, id: FileId)
    ensures EventsOf(events + [e], id) == EventsOf(events, id) + (if e.fileId == id then [e] else [])
  {
    var longer := events + [e];
    assert longer[..|longer| - 1] == events;
  }

  lemma {:induction false} AllLivePath(t: Tree, id: FileId, path: Path)
    requires forall i :: 0 <= i < |t.files| ==> t.files[i].Live()
    requires HasPath(t, id, path)
    ensures LivePath(t, id, path)
    decreases |path|
  {
    if t.files[id].parent.Some? {
      AllLivePath(t, t.files[id].parent.value, path[..|path| - 1]);
    }
  }

  // ---------------------------------------------------------- preservation

  /** A tree that differs from a partial one in one live row, itself explained, is partial. */
  lemma OneRowPartial(db: Db, after: Db, root: Path, disk: Disk, id: FileId, path: Path)
    requires Partial(db, root, disk) && Sound(after) && Grows(db.tree, after.tree)
    requires LivePath(after.tree, id, path) && Explained(after, root, disk, id, path)
    requires forall i :: 0 <= i < |db.tree.files| && i != id ==> after.tree.files[i] == db.tree.files[i]
    requires |after.tree.files| > |db.tree.files| ==> |after.tree.files| == |db.tree.files| + 1 && id == |db.tree.files|
    requires forall i: FileId :: i != id ==> SameEvents(db.events, after.events, i)
    ensures Partial(after, root, disk)
  {
    forall i: FileId, p | HasPath(after.tree, i, p) ensures Explained(after, root, disk, i, p) {
      if i == id {
        LivePathIsPath(after.tree, id, path);
        PathUnique(after.tree, id, path, p);
      } else {
        PathBack(db.tree, after.tree, i, p);
        assert Explained(db, root, disk, i, p);
        assert SameEvents(db.events, after.events, i);
      }
    }
  }

  predicate SameEvents(a: seq<Event>, b: seq<Event>, id: FileId) {
    EventsOf(a, id) == EventsOf(b, id)
  }

  lemma InternPartial(db: Db, root: Path, disk: Disk, name: string)
    requires Partial(db, root, disk)
    ensures Partial(Db(Intern(db.tree, name).0, db.events), root, disk)
  {
    InternFacts(db.tree, name);
    var after := Db(Intern(db.tree, name).0, db.events);
    forall i: FileId, p | HasPath(after.tree, i, p) ensures Explained(after, root, disk, i, p) {
      PathBack(db.tree, after.tree, i, p);
      assert Explained(db, root, disk, i, p);
    }
  }

  /** The row at a path a partial store upserts has, before its event, the events the path
      calls for if it was there, and none if it is new. */
  lemma EventsBefore(db: Db, u: Tree, root: Path, disk: Disk, id: FileId, path: Path)
    requires Partial(db, root, disk) && Grows(db.tree, u) && LivePath(u, id, path)
    ensures id < |db.tree.files| ==> LivePath(db.tree, id, path) && Explained(db, root, disk, id, path)
    ensures id >= |db.tree.files| ==> EventsOf(db.events, id) == []
  {
    if id < |db.tree.files| {
      LivePathIsPath(u, id, path);
      PathBack(db.tree, u, id, path);
      AllLivePath(db.tree, id, path);
    } else {
      NoEventsOf(db, db.events, id);
    }
  }

  lemma EnsureDirPartial(db: Db, root: Path, disk: Disk, start: Option<FileId>, dir: Path, name: string)
    requires Partial(db, root, disk) && LiveStart(db.tree, start, dir) && !OnFile(root, disk, dir + [name])
    ensures Partial(Db(EnsureDir(db.tree, start, name).0, db.events), root, disk)
  {
    EnsureDirFacts(db.tree, start, dir, name);
    InternFacts(db.tree, name);
    var (t1, c) := Intern(db.tree, name);
    UpsertFacts(t1, start, c, true, None, None);
    var (u, id) := EnsureDir(db.tree, start, name);
    EventsBefore(db, u, root, disk, id, dir + [name]);
    OneRowPartial(db, Db(u, db.events), root, disk, id, dir + [name]);
  }

  /** No directory of the chain is a file of the tree. */
  ghost predicate NoFileOn(root: Path, disk: Disk, dir: Path, path: Path) {
    forall q :: q <= path && q != [] ==> !OnFile(root, disk, dir + q)
  }

  lemma NoFileOnStep(root: Path, disk: Disk, dir: Path, path: Path)
    requires NoFileOn(root, disk, dir, path) && path != []
    ensures !OnFile(root, disk, dir + [path[0]])
    ensures NoFileOn(root, disk, dir + [path[0]], path[1..])
  {
    assert [path[0]] <= path;
    forall q | q <= path[1..] && q != [] ensures !OnFile(root, disk, dir + [path[0]] + q) {
      assert [path[0]] + q <= path;
      assert dir + [path[0]] + q == dir + ([path[0]] + q);
    }
  }

  lemma {:induction false} EnsureDirsPartial(db: Db, root: Path, disk: Disk, start: Option<FileId>, dir: Path, path: Path)
    requires Partial(db, root, disk) && LiveStart(db.tree, start, dir) && NoFileOn(root, disk, dir, path)
    ensures Partial(Db(EnsureDirs(db.tree, start, path).0, db.events), root, disk)
    decreases |path|
  {
    if path != [] {
      NoFileOnStep(root, disk, dir, path);
      EnsureDirPartial(db, root, disk, start, dir, path[0]);
      EnsureDirFacts(db.tree, start, dir, path[0]);
      var (t1, id) := EnsureDir(db.tree, start, path[0]);
      EnsureDirsPartial(Db(t1, db.events), root, disk, Some(id), dir + [path[0]], path[1..]);
    }
  }

  lemma {:induction false} EnsurePointPartial(db: Db, root: Path, disk: Disk, start: Option<FileId>, dir: Path, path: Path, d: Tree)
    requires Partial(db, root, disk) && LiveStart(db.tree, start, dir) && NoFileOn(root, disk, dir, path)
    requires EnsurePoint(db.tree, start, path, d)
    ensures Partial(Db(d, db.events), root, disk)
    decreases |path|
  {
    NoFileOnStep(root, disk, dir, path);
    InternPartial(db, root, disk, path[0]);
    EnsureDirPartial(db, root, disk, start, dir, path[0]);
    EnsureDirFacts(db.tree, start, dir, path[0]);
    var (t1, id) := EnsureDir(db.tree, start, path[0]);
    if d != Intern(db.tree, path[0]).0 && d != t1 {
      EnsurePointPartial(Db(t1, db.events), root, disk, Some(id), dir + [path[0]], path[1..], d);
    }
  }

  lemma LeafPartial(db: Db, root: Path, disk: Disk, dir: FileId, dirPath: Path, name: string, node: Node, at: int)
    requires Partial(db, root, disk) && LivePath(db.tree, dir, dirPath)
    requires node.isDir ==> !OnFile(root, disk, dirPath + [name])
    requires !node.isDir ==> OnFile(root, disk, dirPath + [name]) && disk[(dirPath + [name])[|root|..]] == node
    ensures var size := SizeOf(node.isDir, node.len);
            var (u, id, kind) := RecordAt(db.tree, dir, name, node.isDir, size, node.mtime);
            Partial(Db(u, if kind.Some? then db.events + [NewEvent(id, kind.value, at, size)] else db.events), root, disk)
  {
    var path := dirPath + [name];
    var size := SizeOf(node.isDir, node.len);
    var (u, id, kind) := RecordAt(db.tree, dir, name, node.isDir, size, node.mtime);
    RecordAtFacts(db.tree, dir, dirPath, name, node.isDir, size, node.mtime);
    EventsBefore(db, u, root, disk, id, path);
    if node.isDir {
      OneRowPartial(db, Db(u, db.events), root, disk, id, path);
    } else {
      RecordAtKind(db.tree, dir, dirPath, name, size, node.mtime);
      if id < |db.tree.files| {
        assert kind == None;
        OneRowPartial(db, Db(u, db.events), root, disk, id, path);
      } else {
        NewLeafPartial(db, u, root, disk, id, path, kind, node, at);
      }
    }
  }

  lemma NewLeafPartial(db: Db, u: Tree, root: Path, disk: Disk, id: FileId, path: Path, kind: Option<EventKind>, node: Node, at: int)
    requires Partial(db, root, disk) && Valid(u) && Grows(db.tree, u)
    requires RowIs(u, id, path, Some(node.len), node.mtime) && id >= |db.tree.files|
    requires forall i :: 0 <= i < |db.tree.files| ==> u.files[i] == db.tree.files[i]
    requires |u.files| == |db.tree.files| + 1 && id == |db.tree.files|
    requires OnFile(root, disk, path) && disk[path[|root|..]] == node
    requires kind == Some(Created) <==> !LiveAt(db.tree, path)
    requires EventsOf(db.events, id) == []
    ensures kind == Some(Created)
    ensures Partial(Db(u, db.events + [NewEvent(id, Created, at, Some(node.len))]), root, disk)
  {
    if LiveAt(db.tree, path) {
      var prior: FileId :| LivePath(db.tree, prior, path);
      GrowsLivePath(db.tree, u, prior, path);
      LivePathUnique(u, prior, id, path);
      assert false;
    }
    var e := NewEvent(id, Created, at, Some(node.len));
    forall i: FileId | i != id ensures SameEvents(db.events, db.events + [e], i) {
      AppendEventsOf(db.events, e, i);
    }
    AppendEventsOf(db.events, e, id);
    OneRowPartial(db, Db(u, db.events + [e]), root, disk, id, path);
  }

  lemma StepPartial(db: Db, rootId: FileId, root: Path, disk: Disk, item: Item)
    requires Partial(db, root, disk) && LivePath(db.tree, rootId, root) && DiskOk(disk)
    requires Recordable(item) ==> Reports(item, disk)
    ensures Partial(Step(db, rootId, item), root, disk)
  {
    if Recordable(item) {
      var dirs := item.path[..|item.path| - 1];
      var name := item.path[|item.path| - 1];
      assert item.path == dirs + [name];
      assert root + dirs + [name] == root + item.path;
      assert (root + item.path)[|root|..] == item.path;
      forall q | q <= dirs && q != [] ensures !OnFile(root, disk, root + q) {
        assert (root + q)[|root|..] == q;
        assert q < item.path;
      }
      EnsureDirsPartial(db, root, disk, Some(rootId), root, dirs);
      EnsureDirsFacts(db.tree, Some(rootId), root, dirs);
      var (t1, dir) := EnsureDirs(db.tree, Some(rootId), dirs);
      LeafPartial(Db(t1, db.events), root, disk, dir.value, root + dirs, name,
                  Node(item.isDir, item.len, item.mtime), item.at);
    }
  }

  lemma {:induction false} WalkPartial(db: Db, rootId: FileId, root: Path, disk: Disk, items: seq<Item>)
    requires Partial(db, root, disk) && LivePath(db.tree, rootId, root) && DiskOk(disk) && Lists(items, disk)
    ensures Partial(Walk(db, rootId, items), root, disk)
  {
    if items != [] {
      var init := items[..|items| - 1];
      assert Lists(init, disk);
      WalkPartial(db, rootId, root, disk, init);
      WalkSound(db, rootId, root, init);
      StepPartial(Walk(db, rootId, init), rootId, root, disk, items[|items| - 1]);
    }
  }

  lemma RootHasNoFile(root: Path, disk: Disk)
    requires DiskOk(disk)
    ensures NoFileOn(root, disk, [], root)
  {
    forall q | q <= root && q != [] ensures !OnFile(root, disk, [] + q) {
      assert [] + q == q;
      if root <= q {
        assert q[|root|..] == [];
      }
    }
  }

  lemma EnteredPartial(db: Db, root: Path, disk: Disk)
    requires Partial(db, root, disk) && root != [] && DiskOk(disk)
    ensures Partial(Entered(db, root).0, root, disk)
  {
    RootHasNoFile(root, disk);
    EnsureDirsPartial(db, root, disk, None, [], root);
  }

  /** A scan of the tree, wherever it is killed, keeps the store partial. */
  lemma KilledScanPartial(db: Db, root: Path, disk: Disk, items: seq<Item>, d: Db)
    requires Partial(db, root, disk) && root != [] && DiskOk(disk) && Lists(items, disk)
    requires ScanPoint(db, root, items, d)
    ensures Partial(d, root, disk)
  {
    var (entered, rootId) := Entered(db, root);
    if d.events == db.events && EnsurePoint(db.tree, None, root, d.tree) {
      RootHasNoFile(root, disk);
      EnsurePointPartial(db, root, disk, None, [], root, d.tree);
    } else if d != db {
      EnteredPartial(db, root, disk);
      EnteredSound(db, root);
      var k :| 0 <= k <= |items| && d == Walk(entered, rootId, items[..k]);
      assert Lists(items[..k], disk);
      WalkPartial(entered, rootId, root, disk, items[..k]);
    }
  }

  // -------------------------------------------------------------- theorem

  /** `runs` is a history of the file from an empty store: each content is what some scan
      of the tree, listing it in its own way, left when it was killed. */
  ghost predicate KilledScans(runs: seq<Db>, listings: seq<seq<Item>>, root: Path, disk: Disk)
    requires root != []
  {
    && |runs| == |listings| + 1
    && runs[0] == EMPTY
    && forall k :: 0 <= k < |listings| ==> Lists(listings[k], disk) && ScanPoint(runs[k], root, listings[k], runs[k + 1])
  }

  /** The log is the tree: one event per file, its creation, and no other. */
  ghost predicate OneCreationPerFile(db: Db, root: Path, disk: Disk) {
    && (forall p :: IsFile(disk, p) ==> exists id: FileId ::
          && RowIs(db.tree, id, root + p, Some(disk[p].len), disk[p].mtime)
          && |EventsOf(db.events, id)| == 1)
    && (forall k :: 0 <= k < |db.events| ==> CreationOfFile(db, root, disk, db.events[k]))
  }

  ghost predicate CreationOfFile(db: Db, root: Path, disk: Disk, e: Event) {
    && e.kind == Created && |EventsOf(db.events, e.fileId)| == 1
    && exists p :: IsFile(disk, p) && LivePath(db.tree, e.fileId, root + p) && e.size == Some(disk[p].len)
  }

  lemma EmptyPartial(root: Path, disk: Disk)
    ensures Partial(EMPTY, root, disk)
  {
  }

  lemma {:induction false} RunsPartial(runs: seq<Db>, listings: seq<seq<Item>>, root: Path, disk: Disk, k: nat)
    requires root != [] && DiskOk(disk) && KilledScans(runs, listings, root, disk) && k < |runs|
    ensures Partial(runs[k], root, disk)
  {
    if k == 0 {
      EmptyPartial(root, disk);
    } else {
      RunsPartial(runs, listings, root, disk, k - 1);
      KilledScanPartial(runs[k - 1], root, disk, listings[k - 1], runs[k]);
    }
  }

  lemma {:induction false} InEventsOf(events: seq<Event>, k: nat)
    requires k < |events|
    ensures events[k] in EventsOf(events, events[k].fileId)
  {
    if k < |events| - 1 {
      InEventsOf(events[..|events| - 1], k);
    }
  }

  lemma PartialLog(db: Db, root: Path, disk: Disk)
    requires Partial(db, root, disk)
    requires forall p :: IsFile(disk, p) ==> Settled(db.tree, root, disk, p)
    ensures OneCreationPerFile(db, root, disk)
  {
    forall p | IsFile(disk, p)
      ensures exists id: FileId :: RowIs(db.tree, id, root + p, Some(disk[p].len), disk[p].mtime) && |EventsOf(db.events, id)| == 1
    {
      var id: FileId :| RowIs(db.tree, id, root + p, Some(disk[p].len), disk[p].mtime);
      LivePathIsPath(db.tree, id, root + p);
      assert (root + p)[|root|..] == p;
      assert Explained(db, root, disk, id, root + p);
    }
    forall k | 0 <= k < |db.events| ensures CreationOfFile(db, root, disk, db.events[k]) {
      var e := db.events[k];
      InEventsOf(db.events, k);
      assert Resolves(db.tree, e.fileId);
      var path :| HasPath(db.tree, e.fileId, path);
      assert Explained(db, root, disk, e.fileId, path);
      AllLivePath(db.tree, e.fileId, path);
      assert path == root + path[|root|..];
    }
  }

  /** Killed scans, then one complete scan: exactly one Created event per file, nothing
      for directories; and any later scan of the tree adds nothing. */
  lemma KilledScansConverge(runs: seq<Db>, listings: seq<seq<Item>>, root: Path, disk: Disk,
                            items: seq<Item>, again: seq<Item>)
    requires root != [] && DiskOk(disk) && KilledScans(runs, listings, root, disk)
    requires Lists(items, disk) && Covers(items, disk) && Lists(again, disk)
    ensures var done := FullScan(runs[|runs| - 1], root, items);
            && OneCreationPerFile(done, root, disk)
            && FullScan(done, root, again).events == done.events
  {
    var last := runs[|runs| - 1];
    RunsPartial(runs, listings, root, disk, |runs| - 1);
    FullScanSettles(last, root, disk, items);
    var (entered, rootId) := Entered(last, root);
    EnteredPartial(last, root, disk);
    EnteredSound(last, root);
    WalkPartial(entered, rootId, root, disk, items);
    PartialLog(FullScan(last, root, items), root, disk);
    SecondScanQuiet(last, root, disk, items, again);
  }

  // -------------------------------------------------------------- counting

  lemma {:induction false} EventsOfFrom(events: seq<Event>, id: FileId)
    requires EventsOf(events, id) != []
    ensures exists k :: 0 <= k < |events| && events[k].fileId == id
  {
    var last := |events| - 1;
    if events[last].fileId != id {
      EventsOfFrom(events[..last], id);
      var k :| 0 <= k < last && events[..last][k].fileId == id;
      assert events[k].fileId == id;
    }
  }

  lemma {:induction false} EventsOfTwo(events: seq<Event>, j: nat, k: nat)
    requires j < k < |events| && events[j].fileId == events[k].fileId
    ensures |EventsOf(events, events[k].fileId)| >= 2
  {
    var last := |events| - 1;
    if k < last {
      EventsOfTwo(events[..last], j, k);
    } else {
      InEventsOf(events[..last], j);
    }
  }

  lemma {:induction false} DistinctCount<T>(s: seq<T>, elements: set<T>)
    requires forall i, j :: 0 <= i < j < |s| ==> s[i] != s[j]
    requires forall x :: x in elements <==> x in s
    ensures |s| == |elements|
  {
    if s == [] {
      assert elements == {};
    } else {
      var last := s[|s| - 1];
      var init := s[..|s| - 1];
      forall x ensures x in elements - {last} <==> x in init {
        if x in init {
          var i :| 0 <= i < |init| && init[i] == x;
          assert s[i] == x;
        }
        if x in elements - {last} {
          var i :| 0 <= i < |s| && s[i] == x;
          assert init[i] == x;
        }
      }
      DistinctCount(init, elements - {last});
    }
  }

  function Files(disk: Disk): set<Path> {
    set p | p in disk && !disk[p].isDir
  }

  /** The file an event of a partial store is about. */
  ghost function FileOf(db: Db, root: Path, disk: Disk, e: Event): (p: Path)
    requires CreationOfFile(db, root, disk, e)
    ensures IsFile(disk, p) && LivePath(db.tree, e.fileId, root + p)
  {
    var p :| IsFile(disk, p) && LivePath(db.tree, e.fileId, root + p) && e.size == Some(disk[p].len);
    p
  }

  /** One creation per file means as many events as files. */
  lemma AsManyEventsAsFiles(db: Db, root: Path, disk: Disk)
    requires Valid(db.tree) && OneCreationPerFile(db, root, disk)
    ensures |db.events| == |Files(disk)|
  {
    var n := |db.events|;
    var paths := seq(n, k requires 0 <= k < n => FileOf(db, root, disk, db.events[k]));
    forall j, k | 0 <= j < k < n ensures paths[j] != paths[k] {
      if paths[j] == paths[k] {
        LivePathUnique(db.tree, db.events[j].fileId, db.events[k].fileId, root + paths[j]);
        assert CreationOfFile(db, root, disk, db.events[k]);
        EventsOfTwo(db.events, j, k);
        assert false;
      }
    }
    forall p ensures p in Files(disk) <==> p in paths {
      if p in Files(disk) {
        assert IsFile(disk, p);
        FileHasEvent(db, root, disk, p, paths);
      }
    }
    DistinctCount(paths, Files(disk));
  }

  lemma FileHasEvent(db: Db, root: Path, disk: Disk, p: Path, paths: seq<Path>)
    requires Valid(db.tree) && OneCreationPerFile(db, root, disk) && IsFile(disk, p)
    requires |paths| == |db.events|
    requires forall k :: 0 <= k < |paths| ==> LivePath(db.tree, db.events[k].fileId, root + paths[k])
    ensures p in paths
  {
    var id: FileId :| RowIs(db.tree, id, root + p, Some(disk[p].len), disk[p].mtime) && |EventsOf(db.events, id)| == 1;
    EventsOfFrom(db.events, id);
    var k :| 0 <= k < |db.events| && db.events[k].fileId == id;
    LivePathIsPath(db.tree, id, root + p);
    LivePathIsPath(db.tree, id, root + paths[k]);
    PathUnique(db.tree, id, root + p, root + paths[k]);
    PrefixBelow(root, p, paths[k]);
  }

  /** ... so after any killed scans and a complete one the log is as long as the tree has files. */
  lemma ConvergedCount(runs: seq<Db>, listings: seq<seq<Item>>, root: Path, disk: Disk, items: seq<Item>)
    requires root != [] && DiskOk(disk) && KilledScans(runs, listings, root, disk)
    requires Lists(items, disk) && Covers(items, disk)
    ensures |FullScan(runs[|runs| - 1], root, items).events| == |Files(disk)|
  {
    var last := runs[|runs| - 1];
    KilledScansConverge(runs, listings, root, disk, items, []);
    RunsPartial(runs, listings, root, disk, |runs| - 1);
    EnteredSound(last, root);
    WalkSound(Entered(last, root).0, Entered(last, root).1, root, items);
    AsManyEventsAsFiles(FullScan(last, root, items), root, disk);
  }
}
